/**
 * The per-record commands of cmds.js (show, add, delete, edit, test) together with the pieces they
 * share: the id validation, the trimmed reply of a prompt and the case-insensitive answer check.
 * A command's terminal output is an emitted sequence of abstract events; the prompt replies it reads
 * are parameters, in the order the command asks for them.
 */
module Cmds {
  import opened Wrappers
  import opened JsText
  import opened QuizModel

  // ---------------------------------------------------------------------------
  // Output
  // ---------------------------------------------------------------------------

  /** One thing a command writes to the client, colours and banner styling left aside. */
  datatype Event =
    | Ask(prompt: string)           // a question put to the user, awaiting one line
    | Shown(quiz: Quiz)             // " [id]: question => answer"
    | Added(quiz: Quiz)             // "Se ha añadido: question => answer"
    | Changed(quiz: Quiz)           // "Se ha cambiado el quiz id por: question => answer"
    | Failed(message: string)       // an error line with an Error's message
    | Rejected(messages: seq<string>) // "El quiz es erroneo: " then one error line per field message
    | Verdict(correct: bool)        // test: CORRECTO or INCORRECTO, plain and as a banner
    | Hit(score: nat)               // play: CORRECTO, "Aciertos: <score>" and the score as a banner
    | Miss                          // play: INCORRECTO.
    | NoMoreQuestions               // play: "No hay más preguntas"
    | GameOver(score: nat)          // play: "Fin del juego. Has acertado un total de <score> preguntas." and a banner
    | Prompt                        // the command prompt is shown again

  // ---------------------------------------------------------------------------
  // validateId
  // ---------------------------------------------------------------------------

  datatype IdError = MissingParameter | NotANumber
  {
    function Message(): string
    {
      match this
      case MissingParameter => "Falta el parámetro <id>."
      case NotANumber => "El valor del parámetro <id> no es un número."
    }
  }

  /** The message for an id with no record; it quotes the token as the user typed it. */
  function NotFoundMessage(token: string): string
  {
    "No existe un quiz asociado al id=" + token + "."
  }

  /** validateId: an absent token is missing, otherwise parseInt decides. */
  function ValidateId(token: Option<string>): (r: Result<int, IdError>)
    ensures r == Failure(MissingParameter) <==> token.None?
  {
    match token
    case None => Failure(MissingParameter)
    case Some(t) =>
      match ParseIntPrefix(t)
      case None => Failure(NotANumber)
      case Some(n) => Success(n)
  }

  /** A token holding an integer in decimal succeeds with that integer, whatever text trails it. */
  lemma ValidateIdDecimal(w: string, n: int, rest: string)
    requires AllWhitespace(w)
    requires rest == [] || !IsDigit(rest[0], 10)
    requires n == 0 ==> rest == [] || (rest[0] != 'x' && rest[0] != 'X')
    ensures ValidateId(Some(w + IntToDecimal(n) + rest)) == Success(n)
  {
    ParseIntDecimal(w, n, rest);
  }

  /**
   * A present token fails as not a number exactly when it has no integer prefix: after leading
   * whitespace and one optional sign comes no decimal digit, or "0x"/"0X" with no hexadecimal digit.
   * Otherwise it succeeds; it never reports a missing parameter.
   */
  lemma ValidateIdNotANumber(t: string)
    ensures ValidateId(Some(t)) != Failure(MissingParameter)
    ensures ValidateId(Some(t)) == Failure(NotANumber) <==>
      var s := TrimStart(t);
      var u := if s != [] && (s[0] == '-' || s[0] == '+') then s[1..] else s;
      u == [] || !IsDigit(u[0], 10) ||
      (|u| >= 2 && u[0] == '0' && (u[1] == 'x' || u[1] == 'X') && (|u| == 2 || !IsDigit(u[2], 16)))
  {
    ParseIntNaN(t);
  }

  /** "12abc" reads as 12: the text after the digits is dropped. */
  lemma ValidateIdTrailingText()
    ensures ValidateId(Some("12abc")) == Success(12)
  {
    assert "" + IntToDecimal(12) + "abc" == "12abc";
    ValidateIdDecimal("", 12, "abc");
  }

  /** "3.7" reads as 3: parseInt stops at the decimal point. */
  lemma ValidateIdFraction()
    ensures ValidateId(Some("3.7")) == Success(3)
  {
    assert "" + IntToDecimal(3) + ".7" == "3.7";
    ValidateIdDecimal("", 3, ".7");
  }

  /** "abc" and "" have no integer prefix. */
  lemma ValidateIdNoDigits()
    ensures ValidateId(Some("abc")) == Failure(NotANumber)
    ensures ValidateId(Some("")) == Failure(NotANumber)
  {
    TrimStartOfTrimmed("abc");
    assert !IsDigit("abc"[0], 10);
    ValidateIdNotANumber("abc");
    ValidateIdNotANumber("");
  }

  // ---------------------------------------------------------------------------
  // Answer check
  // ---------------------------------------------------------------------------

  /** The answer check of test and play: the reply trimmed, both sides upper-cased, then compared. */
  predicate IsCorrect(reply: string, answer: string)
  {
    Upper(Trim(reply)) == Upper(answer)
  }

  /** Case does not matter, neither in the reply nor in the stored answer. */
  lemma IsCorrectIgnoresCase(reply: string, answer: string)
    ensures IsCorrect(Upper(reply), answer) == IsCorrect(reply, answer)
    ensures IsCorrect(reply, Upper(answer)) == IsCorrect(reply, answer)
  {
    TrimUpper(reply);
    UpperIdempotent(Trim(reply));
    UpperIdempotent(answer);
  }

  /** Whitespace around the reply does not matter. */
  lemma IsCorrectIgnoresPadding(w1: string, reply: string, w2: string, answer: string)
    requires AllWhitespace(w1) && AllWhitespace(w2)
    ensures IsCorrect(w1 + reply + w2, answer) == IsCorrect(reply, answer)
  {
    TrimIgnoresPadding(w1, reply, w2);
  }

  /** The reply arrives already trimmed by the prompt; trimming it again changes nothing. */
  lemma IsCorrectOnPromptReply(line: string, answer: string)
    ensures IsCorrect(Trim(line), answer) == IsCorrect(line, answer)
  {
    TrimIdempotent(line);
  }

  /** A stored answer without surrounding whitespace is accepted when typed back in any case. */
  lemma IsCorrectAcceptsAnswer(answer: string)
    requires IsTrimmed(answer)
    ensures IsCorrect(answer, answer)
    ensures IsCorrect(Upper(answer), answer)
  {
    TrimStartOfTrimmed(answer);
    TrimEndOfTrimmed(answer);
    IsCorrectIgnoresCase(answer, answer);
  }

  /** A stored answer with whitespace at either end can never be matched, whatever the reply. */
  lemma IsCorrectNeverOnPaddedAnswer(reply: string, answer: string)
    requires !IsTrimmed(answer)
    ensures !IsCorrect(reply, answer)
  {
    TrimShape(reply);
    UpperKeepsTrimmed(Trim(reply));
    UpperKeepsTrimmed(answer);
  }

  lemma UpperRoma()
    ensures Upper("roma") == "ROMA" && Upper("Roma") == "ROMA"
  {
    assert UpperChar('r') == 'R' && UpperChar('R') == 'R' && UpperChar('o') == 'O';
    assert UpperChar('m') == 'M' && UpperChar('a') == 'A';
  }

  /** Against the stored answer "Roma", the reply " roma " is right. */
  lemma IsCorrectExampleRight()
    ensures IsCorrect(" roma ", "Roma")
  {
    assert " " + "roma" + " " == " roma ";
    IsCorrectIgnoresPadding(" ", "roma", " ", "Roma");
    TrimStartOfTrimmed("roma");
    TrimEndOfTrimmed("roma");
    UpperRoma();
  }

  /** Against the stored answer "Roma", the reply "Madrid" is wrong. */
  lemma IsCorrectExampleWrong()
    ensures !IsCorrect("Madrid", "Roma")
  {
    TrimStartOfTrimmed("Madrid");
    TrimEndOfTrimmed("Madrid");
    assert |Upper(Trim("Madrid"))| == 6;
  }

  // ---------------------------------------------------------------------------
  // Commands
  // ---------------------------------------------------------------------------

  /** showCmd: validate the id, look it up, print the record or the error. */
  method ShowCmd(store: QuizStore, token: Option<string>) returns (out: seq<Event>)
    requires store.Valid()
    ensures |out| == 2 && out[1] == Prompt
    ensures forall e :: ValidateId(token) == Failure(e) ==> out[0] == Failed(e.Message())
    ensures forall q :: out[0] == Shown(q) <==> q in store.records && ValidateId(token) == Success(q.id)
    ensures ValidateId(token).Success? && (forall q :: q in store.records ==> q.id != ValidateId(token).value)
      ==> out[0] == Failed(NotFoundMessage(token.value))
  {
    UniqueIds(store.records, store.nextId);
    match ValidateId(token)
    case Failure(e) =>
      out := [Failed(e.Message()), Prompt];
    case Success(id) =>
      match store.FindById(id)
      case None =>
        out := [Failed(NotFoundMessage(token.value)), Prompt];
      case Some(q) =>
        out := [Shown(q), Prompt];
  }

  /** The reply to one prompt, as makeQuestion hands it over: the line typed, trimmed. */
  function PromptReply(line: string): (r: string)
    ensures IsTrimmed(r)
    ensures Trim(r) == r
  {
    TrimShape(line);
    TrimIdempotent(line);
    Trim(line)
  }

  /** addCmd: ask for the question, then the answer, then create the record. */
  method AddCmd(store: QuizStore, questionLine: string, answerLine: string) returns (out: seq<Event>)
    requires store.Valid()
    modifies store
    ensures store.Valid()
    ensures var question, answer := PromptReply(questionLine), PromptReply(answerLine);
      var v := Violations(old(store.records), question, answer, None);
      var added := Quiz(old(store.nextId), question, answer);
      if v == [] then
        && store.records == old(store.records) + [added]
        && store.nextId == old(store.nextId) + 1
        && store.FindById(added.id) == Some(added)
        && out == [Ask(" Introduzca una pregunta: "), Ask(" Introduzca la respuesta: "), Added(added), Prompt]
      else
        && store.records == old(store.records)
        && store.nextId == old(store.nextId)
        && out == [Ask(" Introduzca una pregunta: "), Ask(" Introduzca la respuesta: "), Rejected(v), Prompt]
  {
    var question := PromptReply(questionLine);
    var answer := PromptReply(answerLine);
    var r := store.Create(question, answer);
    var ask := [Ask(" Introduzca una pregunta: "), Ask(" Introduzca la respuesta: ")];
    match r
    case Success(q) =>
      out := ask + [Added(q), Prompt];
    case Failure(v) =>
      out := ask + [Rejected(v), Prompt];
  }

  /** deleteCmd: validate the id and delete; an id with no record is not reported. */
  method DeleteCmd(store: QuizStore, token: Option<string>) returns (out: seq<Event>)
    requires store.Valid()
    modifies store
    ensures store.Valid() && store.nextId == old(store.nextId)
    ensures forall e :: ValidateId(token) == Failure(e) ==>
      store.records == old(store.records) && out == [Failed(e.Message()), Prompt]
    ensures forall id :: ValidateId(token) == Success(id) ==>
      && out == [Prompt]
      && (forall q :: q in store.records <==> q in old(store.records) && q.id != id)
      && ((forall q :: q in old(store.records) ==> q.id != id) ==> store.records == old(store.records))
  {
    match ValidateId(token)
    case Failure(e) =>
      out := [Failed(e.Message()), Prompt];
    case Success(id) =>
      store.Destroy(id);
      out := [Prompt];
  }

  /**
   * The part of editCmd after the lookup: ask for the new question, then the new answer, put both
   * into the fetched record and save it under its own id.
   */
  method EditRecord(store: QuizStore, q: Quiz, questionLine: string, answerLine: string) returns (out: seq<Event>)
    requires store.Valid() && q in store.records
    modifies store
    ensures store.Valid() && store.nextId == old(store.nextId)
    ensures var edited := Quiz(q.id, PromptReply(questionLine), PromptReply(answerLine));
      var v := Violations(old(store.records), edited.question, edited.answer, Some(q.id));
      var ask := [Ask(" Introduzca la pregunta: "), Ask(" Introduzca la respuesta: ")];
      if v == [] then
        && store.FindById(q.id) == Some(edited)
        && |store.records| == |old(store.records)|
        && (forall p :: p in old(store.records) && p.id != q.id ==> p in store.records)
        && (forall p :: p in store.records ==> p == edited || p in old(store.records))
        && out == ask + [Changed(edited), Prompt]
      else
        store.records == old(store.records) && out == ask + [Rejected(v), Prompt]
  {
    var ask := [Ask(" Introduzca la pregunta: "), Ask(" Introduzca la respuesta: ")];
    var edited := q.(question := PromptReply(questionLine), answer := PromptReply(answerLine));
    ghost var before := store.records;
    var r := store.Save(edited);
    match r
    case Success(saved) =>
      ReplaceRecordEffect(before, edited);
      UniqueIds(store.records, store.nextId);
      out := ask + [Changed(saved), Prompt];
    case Failure(v) =>
      out := ask + [Rejected(v), Prompt];
  }

  /** editCmd: validate the id, look it up, and edit the record found; without one nothing is asked or saved. */
  method EditCmd(store: QuizStore, token: Option<string>, questionLine: string, answerLine: string)
    returns (out: seq<Event>)
    requires store.Valid()
    modifies store
    ensures store.Valid() && store.nextId == old(store.nextId)
    ensures forall e :: ValidateId(token) == Failure(e) ==>
      store.records == old(store.records) && out == [Failed(e.Message()), Prompt]
    ensures ValidateId(token).Success? && (forall q :: q in old(store.records) ==> q.id != ValidateId(token).value) ==>
      store.records == old(store.records) && out == [Failed(NotFoundMessage(token.value)), Prompt]
    ensures forall q :: q in old(store.records) && ValidateId(token) == Success(q.id) ==>
      var edited := Quiz(q.id, PromptReply(questionLine), PromptReply(answerLine));
      var v := Violations(old(store.records), edited.question, edited.answer, Some(q.id));
      var ask := [Ask(" Introduzca la pregunta: "), Ask(" Introduzca la respuesta: ")];
      if v == [] then
        && store.FindById(q.id) == Some(edited)
        && |store.records| == |old(store.records)|
        && (forall p :: p in old(store.records) && p.id != q.id ==> p in store.records)
        && (forall p :: p in store.records ==> p == edited || p in old(store.records))
        && out == ask + [Changed(edited), Prompt]
      else
        store.records == old(store.records) && out == ask + [Rejected(v), Prompt]
  {
    match ValidateId(token)
    case Failure(e) =>
      out := [Failed(e.Message()), Prompt];
    case Success(id) =>
      match store.FindById(id)
      case None =>
        out := [Failed(NotFoundMessage(token.value)), Prompt];
      case Some(q) =>
        UniqueIds(store.records, store.nextId);
        out := EditRecord(store, q, questionLine, answerLine);
  }

  /** testCmd: validate, look up, ask the question, and say whether the reply is right; nothing is written. */
  method TestCmd(store: QuizStore, token: Option<string>, line: string) returns (out: seq<Event>)
    requires store.Valid()
    ensures |out| >= 2 && out[|out| - 1] == Prompt
    ensures forall e :: ValidateId(token) == Failure(e) ==> out == [Failed(e.Message()), Prompt]
    ensures ValidateId(token).Success? && (forall q :: q in store.records ==> q.id != ValidateId(token).value)
      ==> out == [Failed(NotFoundMessage(token.value)), Prompt]
    ensures forall q :: q in store.records && ValidateId(token) == Success(q.id) ==>
      out == [Ask(q.question + "? "), Verdict(IsCorrect(line, q.answer)), Prompt]
  {
    match ValidateId(token)
    case Failure(e) =>
      out := [Failed(e.Message()), Prompt];
    case Success(id) =>
      match store.FindById(id)
      case None =>
        out := [Failed(NotFoundMessage(token.value)), Prompt];
      case Some(q) =>
        UniqueIds(store.records, store.nextId);
        var reply := PromptReply(line);
        IsCorrectOnPromptReply(line, q.answer);
        out := [Ask(q.question + "? "), Verdict(IsCorrect(reply, q.answer)), Prompt];
  }
}
