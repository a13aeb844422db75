/** The Lebre home page: today's boards split into done, skipped and the
    two sections still to do, each section put in the user's saved order,
    and the rows the done/skip buttons insert. The database reads are the
    parameters `boards`, `days` and `ordering`; today's date is `today`. */
module LebreHome {
  import opened Common

  /** A form value: the text a form field submits, or a flag set by code. */
  datatype FormValue = Text(s: string) | Flag(b: bool)

  type FormObject = map<string, FormValue>

  const UserIdKey := "user_id"
  const CreatedDayKey := "created_day"
  const DoneKey := "done"

  /** The value of the last entry under `key`, as assigning every entry in
      turn leaves it. */
  function LastValue(entries: seq<(string, string)>, key: string): (v: Option<FormValue>)
    ensures v.Some? <==> exists i :: 0 <= i < |entries| && entries[i].0 == key
  {
    if entries == [] then None
    else
      var last := entries[|entries| - 1];
      if last.0 == key then Some(Text(last.1))
      else
        var v := LastValue(entries[..|entries| - 1], key);
        assert forall i :: 0 <= i < |entries| - 1 ==> entries[..|entries| - 1][i] == entries[i];
        v
  }

  /** The object left by `formObject[key] = value` over the entries. */
  function ObjectOf(entries: seq<(string, string)>): FormObject {
    if entries == [] then map[]
    else
      var last := entries[|entries| - 1];
      ObjectOf(entries[..|entries| - 1])[last.0 := Text(last.1)]
  }

  lemma {:induction false} ObjectOfMeaning(entries: seq<(string, string)>)
    ensures forall k :: k in ObjectOf(entries) <==> LastValue(entries, k).Some?
    ensures forall k :: k in ObjectOf(entries) ==> Some(ObjectOf(entries)[k]) == LastValue(entries, k)
  {
    if entries != [] {
      ObjectOfMeaning(entries[..|entries| - 1]);
    }
  }

  /** The loop copying every form entry into a fresh object. */
  method CopyEntries(entries: seq<(string, string)>) returns (obj: FormObject)
    ensures forall k :: k in obj <==> exists i :: 0 <= i < |entries| && entries[i].0 == k
    ensures forall k :: k in obj ==> Some(obj[k]) == LastValue(entries, k)
  {
    obj := map[];
    for i := 0 to |entries|
      invariant obj == ObjectOf(entries[..i])
    {
      assert entries[..i + 1][..i] == entries[..i];
      obj := obj[entries[i].0 := Text(entries[i].1)];
    }
    assert entries[..|entries|] == entries;
    ObjectOfMeaning(entries);
  }

  /** `formatDayNoteForSupabase`: every form field, then `user_id` and
      `created_day` set over whatever the form sent under those names. */
  method FormatDayNoteForSupabase(entries: seq<(string, string)>, userId: string, today: string)
    returns (obj: FormObject)
    ensures forall k :: k in obj <==>
              k == UserIdKey || k == CreatedDayKey || exists i :: 0 <= i < |entries| && entries[i].0 == k
    ensures obj[UserIdKey] == Text(userId) && obj[CreatedDayKey] == Text(today)
    ensures forall k :: k in obj && k != UserIdKey && k != CreatedDayKey ==> Some(obj[k]) == LastValue(entries, k)
  {
    obj := CopyEntries(entries);
    obj := obj[UserIdKey := Text(userId)];
    obj := obj[CreatedDayKey := Text(today)];
  }

  /** The row `submitDone` (done = true) or `submitSkip` (done = false)
      inserts; none without a signed-in user. */
  method SubmitBoardDay(entries: seq<(string, string)>, userId: Option<string>, today: string, done: bool)
    returns (row: Option<FormObject>)
    ensures row.Some? <==> userId.Some? && userId.value != ""
    ensures row.Some? ==>
              (forall k :: k in row.value <==>
                 k == CreatedDayKey || k == DoneKey || exists i :: 0 <= i < |entries| && entries[i].0 == k)
              && row.value[CreatedDayKey] == Text(today) && row.value[DoneKey] == Flag(done)
              && forall k :: k in row.value && k != CreatedDayKey && k != DoneKey ==>
                   Some(row.value[k]) == LastValue(entries, k)
  {
    var obj := CopyEntries(entries);
    obj := obj[CreatedDayKey := Text(today)];
    obj := obj[DoneKey := Flag(done)];
    if userId.Some? && userId.value != "" {
      row := Some(obj);
    } else {
      row := None;
    }
  }

  datatype Board = Board(id: int, title: string, section: Option<string>)

  /** Today's entry for a board: `done` is true, false or null. */
  datatype BoardDay = BoardDay(id: int, done: Option<bool>, notes: Option<string>)

  datatype MarkedBoard = MarkedBoard(boardDayId: int, boardTitle: string, notes: Option<string>)

  datatype RemainingBoard = RemainingBoard(boardId: int, boardTitle: string)

  datatype Class = Marked(done: bool) | Unmarked(section: string) | Invalid

  const InvalidBoard := "LebreHomePage: Invalid `board` in `boards`"

  /** Where a board goes: a today entry decides done or skipped whatever the
      section; otherwise its section, which must be A or B. */
  function Classify(b: Board, days: map<int, BoardDay>): (c: Class)
    ensures b.id in days && days[b.id].done.Some? ==> c == Marked(days[b.id].done.value)
    ensures c.Marked? ==> b.id in days && days[b.id].done == Some(c.done)
    ensures c.Unmarked? <==>
              !(b.id in days && days[b.id].done.Some?) && (b.section == Some("A") || b.section == Some("B"))
    ensures c.Unmarked? ==> b.section == Some(c.section)
  {
    if b.id in days && days[b.id].done == Some(true) then Marked(true)
    else if b.id in days && days[b.id].done == Some(false) then Marked(false)
    else if b.section == Some("A") then Unmarked("A")
    else if b.section == Some("B") then Unmarked("B")
    else Invalid
  }

  /** The boards with a today entry whose `done` is `done`, in input order. */
  function Marks(s: seq<Board>, days: map<int, BoardDay>, done: bool): seq<MarkedBoard> {
    if s == [] then []
    else
      var b := s[|s| - 1];
      Marks(s[..|s| - 1], days, done)
      + (if Classify(b, days) == Marked(done) then [MarkedBoard(days[b.id].id, b.title, days[b.id].notes)] else [])
  }

  /** The unmarked boards of a section, in input order. */
  function Remaining(s: seq<Board>, days: map<int, BoardDay>, section: string): seq<RemainingBoard> {
    if s == [] then []
    else
      var b := s[|s| - 1];
      Remaining(s[..|s| - 1], days, section)
      + (if Classify(b, days) == Unmarked(section) then [RemainingBoard(b.id, b.title)] else [])
  }

  predicate AllValid(s: seq<Board>, days: map<int, BoardDay>) {
    forall i :: 0 <= i < |s| ==> Classify(s[i], days) != Invalid
  }

  datatype Partition = Partition(done: seq<MarkedBoard>, skip: seq<MarkedBoard>,
                                 remainingA: seq<RemainingBoard>, remainingB: seq<RemainingBoard>)

  function PartitionOf(s: seq<Board>, days: map<int, BoardDay>): Partition {
    Partition(Marks(s, days, true), Marks(s, days, false), Remaining(s, days, "A"), Remaining(s, days, "B"))
  }

  /** The loop over the boards: four lists, or the error for the first
      unmarked board outside sections A and B. No boards, no lists. */
  method PartitionBoards(boards: Option<seq<Board>>, days: map<int, BoardDay>)
    returns (r: Result<Partition, string>)
    ensures r.Err? <==> boards.Some? && !AllValid(boards.value, days)
    ensures r.Err? ==> r.error == InvalidBoard
    ensures r.Ok? ==> r.value == PartitionOf(if boards.Some? then boards.value else [], days)
  {
    var done, skip, a, b := [], [], [], [];
    if boards.Some? {
      var s := boards.value;
      for i := 0 to |s|
        invariant AllValid(s[..i], days)
        invariant done == Marks(s[..i], days, true) && skip == Marks(s[..i], days, false)
        invariant a == Remaining(s[..i], days, "A") && b == Remaining(s[..i], days, "B")
      {
        var board := s[i];
        PartitionStep(s, i, days);
        if board.id in days && days[board.id].done == Some(true) {
          done := done + [MarkedBoard(days[board.id].id, board.title, days[board.id].notes)];
        } else if board.id in days && days[board.id].done == Some(false) {
          skip := skip + [MarkedBoard(days[board.id].id, board.title, days[board.id].notes)];
        } else if board.section == Some("A") {
          a := a + [RemainingBoard(board.id, board.title)];
        } else if board.section == Some("B") {
          b := b + [RemainingBoard(board.id, board.title)];
        } else {
          assert !AllValid(s, days) by { assert Classify(s[i], days) == Invalid; }
          return Err(InvalidBoard);
        }
      }
      assert s[..|s|] == s;
    }
    r := Ok(Partition(done, skip, a, b));
  }

  /** One more board extends each list by at most that board. */
  lemma PartitionStep(s: seq<Board>, i: nat, days: map<int, BoardDay>)
    requires i < |s|
    ensures AllValid(s[..i + 1], days) <==> AllValid(s[..i], days) && Classify(s[i], days) != Invalid
    ensures Marks(s[..i + 1], days, true) == Marks(s[..i], days, true)
              + (if Classify(s[i], days) == Marked(true) then [MarkedBoard(days[s[i].id].id, s[i].title, days[s[i].id].notes)] else [])
    ensures Marks(s[..i + 1], days, false) == Marks(s[..i], days, false)
              + (if Classify(s[i], days) == Marked(false) then [MarkedBoard(days[s[i].id].id, s[i].title, days[s[i].id].notes)] else [])
    ensures Remaining(s[..i + 1], days, "A") == Remaining(s[..i], days, "A")
              + (if Classify(s[i], days) == Unmarked("A") then [RemainingBoard(s[i].id, s[i].title)] else [])
    ensures Remaining(s[..i + 1], days, "B") == Remaining(s[..i], days, "B")
              + (if Classify(s[i], days) == Unmarked("B") then [RemainingBoard(s[i].id, s[i].title)] else [])
  {
    var t := s[..i + 1];
    assert t[..|t| - 1] == s[..i] && t[|t| - 1] == s[i];
  }

  /** Every board lands in exactly one of the four lists. */
  lemma {:induction false} PartitionSizes(s: seq<Board>, days: map<int, BoardDay>)
    requires AllValid(s, days)
    ensures |Marks(s, days, true)| + |Marks(s, days, false)| + |Remaining(s, days, "A")| + |Remaining(s, days, "B")| == |s|
  {
    if s != [] {
      PartitionSizes(s[..|s| - 1], days);
      assert Classify(s[|s| - 1], days) != Invalid;
    }
  }

  /** A marked board is listed, with today's entry id and notes, among the
      marks of its `done` value, and every such mark comes from one. */
  lemma {:induction false} MarksMeaning(s: seq<Board>, days: map<int, BoardDay>, done: bool)
    ensures forall b :: b in s && Classify(b, days) == Marked(done) ==>
              MarkedBoard(days[b.id].id, b.title, days[b.id].notes) in Marks(s, days, done)
    ensures forall m :: m in Marks(s, days, done) ==>
              exists b :: b in s && Classify(b, days) == Marked(done)
                 && m == MarkedBoard(days[b.id].id, b.title, days[b.id].notes)
  {
    if s != [] {
      var init := s[..|s| - 1];
      MarksMeaning(init, days, done);
      assert s == init + [s[|s| - 1]];
    }
  }

  /** A board without a mark is listed in its own section, and every listed
      board is such a board. */
  lemma {:induction false} RemainingMeaning(s: seq<Board>, days: map<int, BoardDay>, section: string)
    ensures forall b :: b in s && Classify(b, days) == Unmarked(section) ==>
              RemainingBoard(b.id, b.title) in Remaining(s, days, section)
    ensures forall r :: r in Remaining(s, days, section) ==>
              exists b :: b in s && Classify(b, days) == Unmarked(section) && r == RemainingBoard(b.id, b.title)
  {
    if s != [] {
      var init := s[..|s| - 1];
      RemainingMeaning(init, days, section);
      assert s == init + [s[|s| - 1]];
    }
  }

  /** The lists keep input order: boards earlier in the input come first. */
  lemma {:induction false} RemainingKeepsOrder(s1: seq<Board>, s2: seq<Board>, days: map<int, BoardDay>, section: string)
    ensures Remaining(s1 + s2, days, section) == Remaining(s1, days, section) + Remaining(s2, days, section)
  {
    if s2 == [] {
      assert s1 + s2 == s1;
    } else {
      var init := s2[..|s2| - 1];
      assert (s1 + s2)[..|s1 + s2| - 1] == s1 + init;
      RemainingKeepsOrder(s1, init, days, section);
    }
  }

  lemma {:induction false} MarksKeepOrder(s1: seq<Board>, s2: seq<Board>, days: map<int, BoardDay>, done: bool)
    ensures Marks(s1 + s2, days, done) == Marks(s1, days, done) + Marks(s2, days, done)
  {
    if s2 == [] {
      assert s1 + s2 == s1;
    } else {
      var init := s2[..|s2| - 1];
      assert (s1 + s2)[..|s1 + s2| - 1] == s1 + init;
      MarksKeepOrder(s1, init, days, done);
    }
  }

  /** The record keyed by board id: a later board with the same id replaces
      an earlier one. */
  function IdRecord(s: seq<RemainingBoard>): map<int, RemainingBoard> {
    if s == [] then map[]
    else IdRecord(s[..|s| - 1])[s[|s| - 1].boardId := s[|s| - 1]]
  }

  lemma {:induction false} IdRecordMeaning(s: seq<RemainingBoard>)
    ensures forall id :: id in IdRecord(s) <==> exists b :: b in s && b.boardId == id
    ensures forall id :: id in IdRecord(s) ==> IdRecord(s)[id] in s && IdRecord(s)[id].boardId == id
  {
    if s != [] {
      var init := s[..|s| - 1];
      IdRecordMeaning(init);
      assert s == init + [s[|s| - 1]];
    }
  }

  predicate UniqueBoardIds(s: seq<RemainingBoard>) {
    forall i, j :: 0 <= i < |s| && 0 <= j < |s| && s[i].boardId == s[j].boardId ==> i == j
  }

  function Wrap(s: seq<RemainingBoard>): (r: seq<Option<RemainingBoard>>)
    ensures |r| == |s| && forall i :: 0 <= i < |s| ==> r[i] == Some(s[i])
  {
    seq(|s|, i requires 0 <= i < |s| => Some(s[i]))
  }

  /** `filterSortBoardsInSection`: without a saved ordering the boards as
      they are; with one, slot i holds the board whose id is ordering[i]
      (`undefined` when there is none). */
  method FilterSortBoardsInSection(boards: seq<RemainingBoard>, ordering: Option<seq<int>>)
    returns (r: seq<Option<RemainingBoard>>)
    ensures ordering.None? ==> r == Wrap(boards)
    ensures ordering.Some? ==> |r| == |ordering.value|
    ensures ordering.Some? ==> forall i :: 0 <= i < |r| ==>
              r[i] == if ordering.value[i] in IdRecord(boards) then Some(IdRecord(boards)[ordering.value[i]]) else None
  {
    if ordering.None? {
      return Wrap(boards);
    }
    var record := IdRecord(boards);
    r := [];
    for i := 0 to |ordering.value|
      invariant |r| == i
      invariant forall j :: 0 <= j < i ==>
                  r[j] == if ordering.value[j] in record then Some(record[ordering.value[j]]) else None
    {
      var id := ordering.value[i];
      r := r + [if id in record then Some(record[id]) else None];
    }
  }

  /** With unique ids the ordered section holds, at slot i, exactly the board
      with id ordering[i], an empty slot for an id no board has, and no board
      whose id the ordering leaves out. */
  lemma OrderedSlots(boards: seq<RemainingBoard>, ordering: seq<int>, r: seq<Option<RemainingBoard>>)
    requires UniqueBoardIds(boards) && |r| == |ordering|
    requires forall i :: 0 <= i < |r| ==>
               r[i] == if ordering[i] in IdRecord(boards) then Some(IdRecord(boards)[ordering[i]]) else None
    ensures forall i, b :: 0 <= i < |r| && b in boards ==> (r[i] == Some(b) <==> b.boardId == ordering[i])
    ensures forall i :: 0 <= i < |r| ==> (r[i].None? <==> forall b :: b in boards ==> b.boardId != ordering[i])
    ensures forall b :: b in boards && b.boardId !in ordering ==> Some(b) !in r
  {
    IdRecordMeaning(boards);
    forall i, b | 0 <= i < |r| && b in boards && b.boardId == ordering[i]
      ensures r[i] == Some(b)
    {
      var c := IdRecord(boards)[ordering[i]];
      var x :| 0 <= x < |boards| && boards[x] == b;
      var y :| 0 <= y < |boards| && boards[y] == c;
    }
  }
}
