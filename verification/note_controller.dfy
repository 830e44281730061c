/** The JSON endpoints of the note controller that sit on the retrieval
    core: `/ask`, `/ask/day`, `/ask/note/{id}` and `/notes/update/{id}`.
    A request body is a string map; a key bound to JSON null is modelled as
    an absent key, which is what `Map.get` makes of it. The body of
    `/notes/update/{id}` is a `Map<String, Object>` whose values the
    endpoint reads through `toString()`; its map holds those renderings. */
module NoteController {
  import opened Wrappers
  import opened JavaText
  import opened Domain
  import opened Ranking
  import opened Retrieval
  import opened Answering
  import opened NoteStore

  /** The keys of the JSON response objects. */
  datatype Field = Answer | NoteId | NoteText | NoteCreatedAt | NoteTag

  /** The name each key is written under. */
  function KeyName(f: Field): string
  {
    match f
    case Answer => "answer"
    case NoteId => "noteId"
    case NoteText => "noteText"
    case NoteCreatedAt => "noteCreatedAt"
    case NoteTag => "noteTag"
  }

  /** A value of a JSON response object. `JTime` carries a timestamp whose
      rendering is Jackson's business. */
  datatype Json = JNull | JStr(str: string) | JNum(num: int) | JTime(ts: int)

  function Get(body: map<string, string>, key: string): Option<string>
  {
    if key in body then Some(body[key]) else None
  }

  function StrOrNull(s: Option<string>): Json
  {
    if s.Some? then JStr(s.value) else JNull
  }

  function TimeOrNull(t: Option<int>): Json
  {
    if t.Some? then JTime(t.value) else JNull
  }

  /** The response of `/ask` and `/ask/day`: the answer, then the shown
      note's id, text, creation time and tag, or null id and text (and no
      further keys) when there is none. */
  function AnswerWithNote(answer: string, best: Option<Note>): (m: map<Field, Json>)
    ensures Answer in m && m[Answer] == JStr(answer)
    ensures NoteId in m && NoteText in m
    ensures m[NoteId] == JNull <==> best.None?
    ensures best.None? ==> m.Keys == {Answer, NoteId, NoteText} && m[NoteText] == JNull
    ensures best.Some? ==>
      && m.Keys == {Answer, NoteId, NoteText, NoteCreatedAt, NoteTag}
      && m[NoteId] == JNum(best.value.id) && m[NoteText] == JStr(best.value.text)
      && m[NoteCreatedAt] == TimeOrNull(best.value.createdAt) && m[NoteTag] == StrOrNull(best.value.tag)
  {
    var base := map[Answer := JStr(answer)];
    match best
    case None => base[NoteId := JNull][NoteText := JNull]
    case Some(n) =>
      base[NoteId := JNum(n.id)][NoteText := JStr(n.text)]
          [NoteCreatedAt := TimeOrNull(n.createdAt)][NoteTag := StrOrNull(n.tag)]
  }

  /** `ask`: the generic answer plus the single most relevant note. The
      two service calls each embed the question, list the notes and read
      the clock on their own: `svc`, `listing` and `today` are what
      `answerQuestion` sees, `scan`, `scanListing` and `scanToday` what
      `findMostRelevantNote` sees. The note is shown exactly when the scan
      ranked something, and it is then the scan's first strict maximum.
      When both calls rank the same scored candidates, the note shown is
      the first note of the context the answer was grounded in. */
  method Ask(svc: Services, listing: seq<Note>, today: int,
             scan: Services, scanListing: seq<Note>, scanToday: int,
             body: map<string, string>)
    returns (response: map<Field, Json>)
    requires svc.Valid() && scan.Valid()
    ensures var question := Get(body, "question");
      && Answer in response
      && response[Answer] == JStr(Execute(svc, AnswerQuestion(svc, listing, question, today)))
      && NoteId in response && NoteText in response
      && (response[NoteId] == JNull <==> Ranked(scan, scanListing, question, scanToday) == [])
    ensures var question := Get(body, "question");
      var ranked := Ranked(scan, scanListing, question, scanToday);
      response[NoteId] != JNull ==>
        exists i :: IsBestAt(ranked, i)
          && response == AnswerWithNote(Execute(svc, AnswerQuestion(svc, listing, question, today)), Some(ranked[i].note))
    ensures var question := Get(body, "question");
      var plan := AnswerQuestion(svc, listing, question, today);
      Ranked(svc, listing, question, today) == Ranked(scan, scanListing, question, scanToday)
      && response[NoteId] != JNull ==>
        && plan.Consult? && |plan.context| > 0
        && response[NoteId] == JNum(plan.context[0].id)
        && response[NoteText] == JStr(plan.context[0].text)
        && NoteCreatedAt in response && response[NoteCreatedAt] == TimeOrNull(plan.context[0].createdAt)
        && NoteTag in response && response[NoteTag] == StrOrNull(plan.context[0].tag)
  {
    var question := Get(body, "question");
    var answer := Execute(svc, AnswerQuestion(svc, listing, question, today));
    var best := FindMostRelevantNote(scan, scanListing, question, scanToday);
    response := AnswerWithNote(answer, best);
    if best.Some? {
      var ranked := Ranked(scan, scanListing, question, scanToday);
      var i :| IsBestAt(ranked, i) && ranked[i].note == best.value;
      if Ranked(svc, listing, question, today) == ranked {
        BestNoteLeadsContext(svc, listing, question, today, i);
      }
    }
  }

  /** Every note carries a creation time. */
  predicate Dated(notes: seq<Note>)
  {
    forall i :: 0 <= i < |notes| ==> notes[i].createdAt.Some?
  }

  /** Index `i` holds a latest note, and every earlier note is strictly
      older: the one `Stream.max` keeps, since on a tie it keeps the note
      it already has. */
  predicate IsLatestAt(notes: seq<Note>, i: int)
    requires Dated(notes)
  {
    && 0 <= i < |notes|
    && (forall j :: 0 <= j < |notes| ==> notes[j].createdAt.value <= notes[i].createdAt.value)
    && (forall j :: 0 <= j < i ==> notes[j].createdAt.value < notes[i].createdAt.value)
  }

  /** `Stream.max(comparing(createdAt))`, as the left fold it is. */
  function LatestIndex(notes: seq<Note>): (i: int)
    requires Dated(notes) && |notes| > 0
    ensures IsLatestAt(notes, i)
  {
    if |notes| == 1 then 0
    else
      var init := notes[..|notes| - 1];
      assert Dated(init);
      var k := LatestIndex(init);
      assert forall j :: 0 <= j < |init| ==> init[j] == notes[j];
      if notes[k].createdAt.value >= notes[|notes| - 1].createdAt.value then k
      else |notes| - 1
  }

  const DateRequired: string := "date is required (YYYY-MM-DD)"

  /** The success response of `askForDay`: the answer, and the latest of
      the day's notes (none when the day has no notes). */
  function DayResponse(answer: string, dayNotes: seq<Note>): (m: map<Field, Json>)
    requires Dated(dayNotes)
    ensures Answer in m && m[Answer] == JStr(answer)
    ensures NoteId in m && (m[NoteId] == JNull <==> dayNotes == [])
    ensures dayNotes == [] ==> m == AnswerWithNote(answer, None)
    ensures dayNotes != [] ==>
      exists i :: IsLatestAt(dayNotes, i) && m == AnswerWithNote(answer, Some(dayNotes[i]))
  {
    if dayNotes == [] then AnswerWithNote(answer, None)
    else
      var i := LatestIndex(dayNotes);
      assert IsLatestAt(dayNotes, i);
      AnswerWithNote(answer, Some(dayNotes[i]))
  }

  /** `askForDay`: a missing or blank date is rejected, an unparsable one
      fails in `LocalDate.parse`, and `LocalDate.MAX` fails in the date
      flow; otherwise the date flow answers the question, or the
      controller's own default for a missing or blank one. */
  function AskForDay(svc: Services, listing: seq<Note>, body: map<string, string>, today: int): (r: Result<map<Field, Json>, Thrown>)
    requires svc.Valid()
    ensures MissingOrBlank(Get(body, "date")) ==> r == Failure(IllegalArgument(DateRequired))
    ensures !MissingOrBlank(Get(body, "date")) && svc.parseDate(body["date"]).None? ==>
              r == Failure(DateTimeParse(body["date"]))
    ensures !MissingOrBlank(Get(body, "date")) && svc.parseDate(body["date"]).Some?
            && svc.parseDate(body["date"]).value >= MaxDay ==>
              r == Failure(DateTimeRange(svc.parseDate(body["date"]).value + 1))
    ensures r.Success? <==>
      !MissingOrBlank(Get(body, "date")) && svc.parseDate(body["date"]).Some? && svc.parseDate(body["date"]).value < MaxDay
    ensures r.Success? ==>
      var dateStr := body["date"];
      var day := svc.parseDate(dateStr).value;
      var plan := AnswerQuestionForDate(svc, listing, Some(DayQuestion(Get(body, "question"), dateStr)), day, today);
      plan.Success? && r.value == DayResponse(Execute(svc, plan.value), NotesOnDay(listing, day))
  {
    var dateStr := Get(body, "date");
    if MissingOrBlank(dateStr) then Failure(IllegalArgument(DateRequired))
    else
      var parsed := svc.parseDate(dateStr.value);
      if parsed.None? then Failure(DateTimeParse(dateStr.value))
      else
        match AnswerQuestionForDate(svc, listing, Some(DayQuestion(Get(body, "question"), dateStr.value)), parsed.value, today)
        case Failure(e) => Failure(e)
        case Success(plan) =>
          match FindNotesForDate(listing, parsed.value)
          case Failure(e) => Failure(e)
          case Success(dayNotes) => Success(DayResponse(Execute(svc, plan), dayNotes))
  }

  /** The default question up to the date; it starts with "Summarize ". */
  const DayDefaultPrefix: string := "Summarize " + "everything important I did, thought, or noted on "

  /** The question `askForDay` passes on: the body's own when it is
      neither missing nor blank, else the controller's default naming the
      date. Either way it is not blank. */
  function DayQuestion(question: Option<string>, dateStr: string): (r: string)
    ensures !MissingOrBlank(question) ==> r == question.value
    ensures MissingOrBlank(question) ==>
      && |r| == |DayDefaultPrefix| + |dateStr| + 1
      && r[..|DayDefaultPrefix|] == DayDefaultPrefix
      && r[|DayDefaultPrefix|..|r| - 1] == dateStr
      && r[|r| - 1] == '.'
    ensures !IsBlank(r)
  {
    if MissingOrBlank(question) then
      var r := DayDefaultPrefix + dateStr + ".";
      assert r[0] == 'S';
      r
    else question.value
  }

  /** Without a question, the controller's default replaces it and does
      not trim to nothing, so the service's own date default is not used. */
  lemma DayDefaultNotTrimEmpty(question: Option<string>, dateStr: string)
    requires MissingOrBlank(question)
    ensures !TrimEmpty(Some(DayQuestion(question, dateStr)))
  {
    var s := DayQuestion(question, dateStr);
    assert s == DayDefaultPrefix + (dateStr + ".");
    assert s[0] == 'S';
    TrimStartFixed(s);
    assert |Trim(s)| > 0;
  }

  /** The service's own date default is still reachable from `/ask/day`: a
      question of one U+0001 is not blank, so the controller keeps it, but
      `trim` removes it, so on a day with notes the model is asked the
      service's default. */
  lemma ServiceDateDefaultReachable(svc: Services, listing: seq<Note>, dateStr: string, day: int, today: int)
    requires svc.Valid() && day < MaxDay && NotesOnDay(listing, day) != []
    ensures var question := Some([0x01 as char]);
      && !MissingOrBlank(question)
      && DayQuestion(question, dateStr) == [0x01 as char]
      && AnswerQuestionForDate(svc, listing, Some(DayQuestion(question, dateStr)), day, today)
         == Success(Consult(DateDefault + DateRails, NotesOnDay(listing, day)))
  {
    BlankAndTrimEmptyDiffer();
  }

  /** `askForNote`: only the answer, or the not-found exception. */
  function AskForNote(svc: Services, store: Store, id: int, body: Option<map<string, string>>): (r: Result<map<Field, Json>, Thrown>)
    ensures r.Failure? <==> id !in store
    ensures id !in store ==> r == Failure(IllegalArgument("Note not found: " + IntToString(id)))
    ensures r.Success? ==>
      var question := if body.Some? then Get(body.value, "question") else None;
      && r.value.Keys == {Answer}
      && r.value[Answer] == JStr(Execute(svc, AnswerQuestionForNote(store, question, id).value))
  {
    var question := if body.Some? then Get(body.value, "question") else None;
    match AnswerQuestionForNote(store, question, id)
    case Failure(e) => Failure(e)
    case Success(plan) => Success(map[Answer := JStr(Execute(svc, plan))])
  }

  /** A request without a body asks the same as a body without a question. */
  lemma AskForNoteWithoutBody(svc: Services, store: Store, id: int)
    ensures AskForNote(svc, store, id, None) == AskForNote(svc, store, id, Some(map[]))
  {
  }

  /** The three outcomes of `updateNoteText`. */
  datatype Status = Ok | BadRequest(message: string) | NotFound

  /** `updateNoteText`: the trimmed text is required; an unknown id is a
      404; otherwise the stored row gets the trimmed text and nothing
      else changes, the embedding included. */
  function UpdateNoteText(store: Store, id: int, payload: map<string, string>): (r: (Status, Store))
    ensures var text := Trim(Get(payload, "text").GetOr(""));
      && (text == "" ==> r == (BadRequest("text is required"), store))
      && (text != "" && id !in store ==> r == (NotFound, store))
      && (r.0 == Ok <==> text != "" && id in store)
      && (r.0 == Ok ==>
            && r.1.Keys == store.Keys
            && r.1[id] == store[id].(text := text)
            && (forall k :: k in store && k != id ==> r.1[k] == store[k]))
  {
    var text := Trim(Get(payload, "text").GetOr(""));
    if text == "" then (BadRequest("text is required"), store)
    else if id !in store then (NotFound, store)
    else (Ok, store[id := store[id].(text := text)])
  }

  /** Sending the same edit twice leaves the table as the first edit did. */
  lemma UpdateNoteTextIdempotent(store: Store, id: int, payload: map<string, string>)
    ensures var once := UpdateNoteText(store, id, payload).1;
      UpdateNoteText(once, id, payload) == (UpdateNoteText(store, id, payload).0, once)
  {
    var text := Trim(Get(payload, "text").GetOr(""));
    if text != "" && id in store {
      var once := UpdateNoteText(store, id, payload).1;
      assert once[id := once[id].(text := text)] == once;
    }
  }

  /** The endpoint edits what `updateText` edits, except that it trims the
      text and keeps the old embedding. */
  lemma UpdateNoteTextVersusService(store: Store, id: int, payload: map<string, string>, embedNote: string -> string)
    requires UpdateNoteText(store, id, payload).0 == Ok
    ensures var text := Trim(payload["text"]);
      var viaService := UpdateText(store, id, text, embedNote).value.0;
      var viaEndpoint := UpdateNoteText(store, id, payload).1;
      && viaEndpoint.Keys == viaService.Keys
      && viaEndpoint[id] == viaService[id].(embedding := store[id].embedding)
      && (forall k :: k in store && k != id ==> viaEndpoint[k] == viaService[k])
  {
  }

  /** So an edit through this endpoint that changes what the embedding
      call yields leaves the edited row, and with it the table, with a
      stale embedding, which retrieval goes on scoring. */
  lemma UpdateNoteTextLeavesStaleEmbedding(store: Store, id: int, payload: map<string, string>, embedNote: string -> string)
    requires id in store && "text" in payload && Trim(payload["text"]) != ""
    requires store[id].embedding == Some(embedNote(store[id].text))
    requires embedNote(Trim(payload["text"])) != embedNote(store[id].text)
    ensures var after := UpdateNoteText(store, id, payload).1;
      && id in after && after[id].text == Trim(payload["text"])
      && after[id].embedding != Some(embedNote(after[id].text))
      && !EmbeddingsCurrent(after, embedNote)
  {
    var after := UpdateNoteText(store, id, payload).1;
    assert after[id].embedding == store[id].embedding;
  }
}
