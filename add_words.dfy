/** The add-words form: five fields edited one at a time, a submit that checks
    the three text fields, posts the form to the vocabulary route and either
    resets the form or shows the route's error, and a clear button. The server
    is `GreekVocabularyRoute.Post`; the answer the page receives is a
    parameter of the submit, and the lemmas below say what `Post` answers to
    the body the form sends. */
module AddWords {
  import opened Common
  import opened Text
  import opened Vocabulary
  import opened GreekVocabularyRoute

  datatype FieldName = EnglishWord | GreekWord | Transliteration | WordType | KnowledgeLevel

  datatype MessageKind = Success | Error

  datatype Message = Message(kind: MessageKind, text: string)

  const FillInAll: string := "Please fill in all required fields."
  const Added: string := "Greek word added successfully!"
  const FallbackError: string := "Failed to add word"

  /** The form's own check: no required field is blank after trimming. */
  predicate FormComplete(english: string, greek: string, transliteration: string) {
    Trim(english) != "" && Trim(greek) != "" && Trim(transliteration) != ""
  }

  /** `errorData.error || 'Failed to add word'`. */
  function ErrorText(error: string): (t: string)
    ensures t != ""
    ensures error != "" ==> t == error
  {
    if error == "" then FallbackError else error
  }

  class AddWordsForm {
    var englishWord: string
    var greekWord: string
    var transliteration: string
    var wordType: string
    var knowledgeLevel: string
    var isSubmitting: bool
    var message: Option<Message>

    /** The defaults the form starts from and returns to. */
    predicate AtDefaults()
      reads this
    {
      englishWord == "" && greekWord == "" && transliteration == ""
      && wordType == DefaultWordType && knowledgeLevel == DefaultKnowledgeLevel
    }

    function Body(): Body
      reads this
    {
      StringBody(englishWord, greekWord, transliteration, wordType, knowledgeLevel)
    }

    constructor ()
      ensures AtDefaults() && !isSubmitting && message.None?
    {
      englishWord := "";
      greekWord := "";
      transliteration := "";
      wordType := DefaultWordType;
      knowledgeLevel := DefaultKnowledgeLevel;
      isSubmitting := false;
      message := None;
    }

    /** `handleInputChange`: only the named field takes the new value. */
    method HandleInputChange(name: FieldName, value: string)
      modifies this
      ensures englishWord == if name == EnglishWord then value else old(englishWord)
      ensures greekWord == if name == GreekWord then value else old(greekWord)
      ensures transliteration == if name == Transliteration then value else old(transliteration)
      ensures wordType == if name == WordType then value else old(wordType)
      ensures knowledgeLevel == if name == KnowledgeLevel then value else old(knowledgeLevel)
      ensures isSubmitting == old(isSubmitting) && message == old(message)
    {
      match name
      case EnglishWord => englishWord := value;
      case GreekWord => greekWord := value;
      case Transliteration => transliteration := value;
      case WordType => wordType := value;
      case KnowledgeLevel => knowledgeLevel := value;
    }

    /** `handleSubmit`. An incomplete form is refused without a request.
        Otherwise the form is posted as it stands (the returned body) and the
        route's `answer` decides: on success the form is reset and a success
        message shown, on failure the form is kept and the route's error
        shown. Either way the form is no longer submitting. */
    method HandleSubmit(answer: Response) returns (request: Option<Body>)
      modifies this
      ensures !old(FormComplete(englishWord, greekWord, transliteration)) ==>
                request.None? && message == Some(Message(Error, FillInAll))
                && englishWord == old(englishWord) && greekWord == old(greekWord)
                && transliteration == old(transliteration) && wordType == old(wordType)
                && knowledgeLevel == old(knowledgeLevel) && isSubmitting == old(isSubmitting)
      ensures old(FormComplete(englishWord, greekWord, transliteration)) ==>
                request == Some(old(Body())) && !isSubmitting
      ensures old(FormComplete(englishWord, greekWord, transliteration)) && answer.Created? ==>
                AtDefaults() && message == Some(Message(Success, Added))
      ensures old(FormComplete(englishWord, greekWord, transliteration)) && answer.Failure? ==>
                message == Some(Message(Error, ErrorText(answer.error)))
                && englishWord == old(englishWord) && greekWord == old(greekWord)
                && transliteration == old(transliteration) && wordType == old(wordType)
                && knowledgeLevel == old(knowledgeLevel)
    {
      var complete := FormComplete(englishWord, greekWord, transliteration);
      if !complete {
        message := Some(Message(Error, FillInAll));
        request := None;
      } else {
        request := Some(Body());
        isSubmitting := true;
        message := None;
        ShowResponse(answer);
        assert answer.Failure? ==> message == Some(Message(Error, ErrorText(answer.error)));
      }
    }

    /** The part of `handleSubmit` after the request: the message, the reset
        on success, and `isSubmitting` cleared in `finally`. */
    method ShowResponse(r: Response)
      modifies this
      ensures r.Created? ==> AtDefaults() && message == Some(Message(Success, Added))
      ensures r.Failure? ==>
                message == Some(Message(Error, ErrorText(r.error)))
                && englishWord == old(englishWord) && greekWord == old(greekWord)
                && transliteration == old(transliteration) && wordType == old(wordType)
                && knowledgeLevel == old(knowledgeLevel)
      ensures !isSubmitting
    {
      if r.Failure? {
        message := Some(Message(Error, ErrorText(r.error)));
      } else {
        message := Some(Message(Success, Added));
        englishWord, greekWord, transliteration := "", "", "";
        wordType, knowledgeLevel := DefaultWordType, DefaultKnowledgeLevel;
      }
      isSubmitting := false;
    }

    /** `handleClear`: the defaults again, and no message. */
    method HandleClear()
      modifies this
      ensures AtDefaults() && message.None? && isSubmitting == old(isSubmitting)
    {
      englishWord, greekWord, transliteration := "", "", "";
      wordType, knowledgeLevel := DefaultWordType, DefaultKnowledgeLevel;
      message := None;
    }
  }

  /** A complete form whose two selects hold offered values is accepted by the
      route whenever the insert succeeds, and stored trimmed. */
  lemma CompleteFormAccepted(english: string, greek: string, transliteration: string,
                             wordType: string, knowledgeLevel: string)
    requires FormComplete(english, greek, transliteration)
    requires wordType in WordTypes && knowledgeLevel in KnowledgeLevels
    ensures Post(StringBody(english, greek, transliteration, wordType, knowledgeLevel), true)
            == Created(NewEntry(Trim(english), Trim(greek), Trim(transliteration), wordType, knowledgeLevel))
  {
    TrimmedNonEmpty(english);
    TrimmedNonEmpty(greek);
    TrimmedNonEmpty(transliteration);
    StringBodyAccepted(english, greek, transliteration, wordType, knowledgeLevel);
  }

  lemma TrimmedNonEmpty(s: string)
    requires Trim(s) != ""
    ensures s != ""
  {
    TrimEmpty("");
  }

  /** The form is stricter than the route: white space alone is refused by
      the form, though the route would store it as an empty string. */
  lemma FormStricterThanRoute(english: string)
    requires english != [] && AllSpace(english)
    ensures !FormComplete(english, "a", "a")
    ensures Post(StringBody(english, "a", "a", "noun", "Moderate know"), true).Created?
  {
    TrimEmpty(english);
    assert WordTypes[0] == "noun" && KnowledgeLevels[2] == "Moderate know";
    StringBodyAccepted(english, "a", "a", "noun", "Moderate know");
  }
}
