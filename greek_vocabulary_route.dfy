/** The `POST` handler of the Greek vocabulary route: it validates the JSON
    body, applies defaults, trims the three text fields and inserts the entry.
    The parsed body is a parameter, and so is the outcome of the insert
    (`inserted` is false when the helper returns `null`). */
module GreekVocabularyRoute {
  import opened Text
  import opened Vocabulary

  /** A JSON value as far as the handler inspects it; arrays and objects are
      `Composite`. Numbers are whole; `NaN` cannot come from JSON. */
  datatype JsValue = Undefined | Null | Bool(b: bool) | Num(n: int) | Str(s: string) | Composite

  /** JavaScript truthiness. */
  predicate Truthy(v: JsValue) {
    match v
    case Undefined => false
    case Null => false
    case Bool(b) => b
    case Num(n) => n != 0
    case Str(s) => s != ""
    case Composite => true
  }

  /** The five properties the handler destructures from the body, each
      `Undefined` when absent; other properties are never read. */
  datatype Fields = Fields(englishWord: JsValue, greekWord: JsValue, transliteration: JsValue,
                           wordType: JsValue, knowledgeLevel: JsValue)

  /** What `request.json()` produced: unparsable text, the literal `null`, an
      object, or another primitive or an array (whose properties are all
      `undefined`). */
  datatype Body = Malformed | JsonNull | Object(fields: Fields) | Primitive

  /** The row handed to `addGreekVocabularyEntry`. */
  datatype NewEntry = NewEntry(englishWord: string, greekWord: string, transliteration: string,
                               wordType: string, knowledgeLevel: string)

  datatype Response = Created(entry: NewEntry) | Failure(status: int, error: string)

  const MissingFields: string := "Missing required fields: english_word, greek_word, transliteration"
  const InvalidWordType: string := "Invalid word_type. Must be one of: noun, verb, adjective, adverb, number, other"
  const InvalidKnowledgeLevel: string := "Invalid knowledge_level. Must be one of: Full know, Almost full or with errors, Moderate know, Recent touch"
  /** The catch-all answer to an exception: unparsable JSON, a `null` body, or
      `trim` called on a value that is not a string. */
  const AddFailed: string := "Failed to add Greek vocabulary entry"
  const InsertFailed: string := "Failed to add vocabulary entry"

  /** `validWordTypes.includes(v)`, which compares with `===`. */
  predicate AllowedIn(v: JsValue, allowed: seq<string>) {
    v.Str? && v.s in allowed
  }

  /** The three required fields are present, truthy strings, and any given
      enumerated value is allowed. */
  predicate Acceptable(fields: Fields) {
    var e, g, t := fields.englishWord, fields.greekWord, fields.transliteration;
    var wt, kl := fields.wordType, fields.knowledgeLevel;
    Truthy(e) && Truthy(g) && Truthy(t)
    && (Truthy(wt) ==> AllowedIn(wt, WordTypes))
    && (Truthy(kl) ==> AllowedIn(kl, KnowledgeLevels))
    && e.Str? && g.Str? && t.Str?
  }

  /** `POST`. */
  function Post(body: Body, inserted: bool): (r: Response)
    ensures r.Created? <==> body.Object? && Acceptable(body.fields) && inserted
    ensures r.Created? ==> r.entry.wordType in WordTypes && r.entry.knowledgeLevel in KnowledgeLevels
  {
    match body
    case Malformed => Failure(500, AddFailed)
    case JsonNull => Failure(500, AddFailed)
    case Primitive => Failure(400, MissingFields)
    case Object(fields) =>
      var e, g, t := fields.englishWord, fields.greekWord, fields.transliteration;
      var wt, kl := fields.wordType, fields.knowledgeLevel;
      if !Truthy(e) || !Truthy(g) || !Truthy(t) then Failure(400, MissingFields)
      else if Truthy(wt) && !AllowedIn(wt, WordTypes) then Failure(400, InvalidWordType)
      else if Truthy(kl) && !AllowedIn(kl, KnowledgeLevels) then Failure(400, InvalidKnowledgeLevel)
      else if !e.Str? || !g.Str? || !t.Str? then Failure(500, AddFailed)
      else
        var entry := NewEntry(Trim(e.s), Trim(g.s), Trim(t.s),
                              if Truthy(wt) then wt.s else DefaultWordType,
                              if Truthy(kl) then kl.s else DefaultKnowledgeLevel);
        if !inserted then Failure(500, InsertFailed) else Created(entry)
  }

  /** A body of strings only, as the form sends it. */
  function StringBody(english: string, greek: string, transliteration: string,
                      wordType: string, knowledgeLevel: string): Body {
    Object(Fields(Str(english), Str(greek), Str(transliteration), Str(wordType), Str(knowledgeLevel)))
  }

  /** A missing or empty required field is reported before anything else. */
  lemma MissingFieldsFirst(fields: Fields, inserted: bool)
    requires !Truthy(fields.englishWord) || !Truthy(fields.greekWord)
             || !Truthy(fields.transliteration)
    ensures Post(Object(fields), inserted) == Failure(400, MissingFields)
  {
  }

  /** A given word type outside the six is refused, before the knowledge
      level is looked at. */
  lemma BadWordTypeRefused(fields: Fields, inserted: bool)
    requires Truthy(fields.englishWord) && Truthy(fields.greekWord)
             && Truthy(fields.transliteration)
    requires Truthy(fields.wordType) && !AllowedIn(fields.wordType, WordTypes)
    ensures Post(Object(fields), inserted) == Failure(400, InvalidWordType)
  {
  }

  /** A given knowledge level outside the four is refused once the word type
      has passed. */
  lemma BadKnowledgeLevelRefused(fields: Fields, inserted: bool)
    requires Truthy(fields.englishWord) && Truthy(fields.greekWord)
             && Truthy(fields.transliteration)
    requires Truthy(fields.wordType) ==> AllowedIn(fields.wordType, WordTypes)
    requires Truthy(fields.knowledgeLevel) && !AllowedIn(fields.knowledgeLevel, KnowledgeLevels)
    ensures Post(Object(fields), inserted) == Failure(400, InvalidKnowledgeLevel)
  {
  }

  /** An accepted body is stored trimmed, with falsy enumerated values
      replaced by the defaults. */
  lemma AcceptedEntry(fields: Fields)
    requires Acceptable(fields)
    ensures var r := Post(Object(fields), true);
            r.Created?
            && r.entry.englishWord == Trim(fields.englishWord.s)
            && r.entry.greekWord == Trim(fields.greekWord.s)
            && r.entry.transliteration == Trim(fields.transliteration.s)
            && (!Truthy(fields.wordType) ==> r.entry.wordType == "noun")
            && (Truthy(fields.wordType) ==> r.entry.wordType == fields.wordType.s)
            && (!Truthy(fields.knowledgeLevel) ==> r.entry.knowledgeLevel == "Moderate know")
            && (Truthy(fields.knowledgeLevel) ==> r.entry.knowledgeLevel == fields.knowledgeLevel.s)
  {
  }

  /** A body of non-empty strings with allowed enumerated values is stored
      trimmed, as given. */
  lemma StringBodyAccepted(english: string, greek: string, transliteration: string,
                           wordType: string, knowledgeLevel: string)
    requires english != "" && greek != "" && transliteration != ""
    requires wordType in WordTypes && knowledgeLevel in KnowledgeLevels
    ensures Post(StringBody(english, greek, transliteration, wordType, knowledgeLevel), true)
            == Created(NewEntry(Trim(english), Trim(greek), Trim(transliteration), wordType, knowledgeLevel))
  {
    EmptyNotAllowed();
    var fields := Fields(Str(english), Str(greek), Str(transliteration), Str(wordType), Str(knowledgeLevel));
    assert Truthy(fields.wordType) && AllowedIn(fields.wordType, WordTypes);
    assert Truthy(fields.knowledgeLevel) && AllowedIn(fields.knowledgeLevel, KnowledgeLevels);
    assert Acceptable(fields);
  }

  /** No allowed value is the empty string, so an allowed value is truthy. */
  lemma EmptyNotAllowed()
    ensures "" !in WordTypes && "" !in KnowledgeLevels
  {
  }

  /** White space alone passes the presence check and is stored empty. */
  lemma WhitespaceOnlyStoredEmpty(english: string, greek: string, transliteration: string)
    requires english != [] && AllSpace(english)
    requires greek != [] && transliteration != []
    ensures var r := Post(StringBody(english, greek, transliteration, "", ""), true);
            r.Created? && r.entry.englishWord == ""
            && r.entry.wordType == "noun" && r.entry.knowledgeLevel == "Moderate know"
  {
    TrimEmpty(english);
  }
}
