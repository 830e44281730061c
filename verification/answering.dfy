/** The three question-answering flows of the note service. Each decides
    either a canned reply or a consultation of the chat model with a
    question and the context notes; `Execute` turns that decision into the
    reply text. */
module Answering {
  import opened Wrappers
  import opened JavaText
  import opened Domain
  import opened Similarity
  import opened Ranking
  import opened Retrieval
  import opened ChatPrompt
  import opened NoteStore

  /** The outcome of a flow before the chat model is called. */
  datatype Plan = Reply(text: string) | Consult(question: string, context: seq<Note>)

  function Execute(svc: Services, p: Plan): (r: string)
    ensures p.Reply? ==> r == p.text
    ensures p.Consult? ==> r == CallChatModel(svc, p.question, p.context)
  {
    match p
    case Reply(t) => t
    case Consult(q, ctx) => CallChatModel(svc, q, ctx)
  }

  const PleaseType: string := "Please type a question."
  const NoNotesYet: string := "You don't have any notes yet, so I can't answer from your history."
  const NoEmbeddedNotes: string := "I couldn't find any notes with embeddings yet. Try adding some recent notes first."
  const NoMatch: string := "I couldn't match your question to any of your notes yet."

  /** At most this many notes go to the chat model in the generic flow. */
  const ContextLimit: nat := 8

  function NotesOf(s: seq<Scored>): (r: seq<Note>)
    ensures |r| == |s|
    ensures forall i :: 0 <= i < |s| ==> r[i] == s[i].note
  {
    seq(|s|, i requires 0 <= i < |s| => s[i].note)
  }

  /** `answerQuestion`. A missing or blank question and an empty store get
      canned replies. A "today" question with no note of today is sent to
      the model with an empty context rather than with older notes; a
      generic question with no embedded note gets a canned reply, and so
      does one whose candidates all fail to parse. Otherwise the model sees
      the first `ContextLimit` notes of any stable sort of the scored
      candidates by descending score: only embedded notes from the store
      whose vector parses to something, and only today's notes for a
      "today" question. */
  function AnswerQuestion(svc: Services, listing: seq<Note>, question: Option<string>, today: int): (p: Plan)
    requires svc.Valid()
    ensures MissingOrBlank(question) ==> p == Reply(PleaseType)
    ensures !MissingOrBlank(question) && listing == [] ==> p == Reply(NoNotesYet)
    ensures !MissingOrBlank(question) && listing != [] ==>
      var q := question.value;
      var cands := Candidates(listing, AboutToday(q), today);
      && (cands == [] && AboutToday(q) ==> p == Consult(q, []))
      && (cands == [] && !AboutToday(q) ==> p == Reply(NoEmbeddedNotes))
      && (cands != [] && Ranked(svc, listing, question, today) == [] ==> p == Reply(NoMatch))
    ensures Ranked(svc, listing, question, today) != [] ==>
      var ranked := Ranked(svc, listing, question, today);
      && p.Consult? && p.question == question.value
      && |p.context| == Min(ContextLimit, |ranked|)
      && (forall output :: IsStableDescSort(ranked, output) ==> p.context == NotesOf(output[..|p.context|]))
    ensures p.Consult? ==> !MissingOrBlank(question) && p.question == question.value
    ensures p.Consult? ==> |p.context| <= ContextLimit
    ensures p.Consult? ==> forall n :: n in p.context ==>
      && n in listing && HasEmbedding(n) && |VectorOf(svc, n)| > 0
      && (AboutToday(question.value) ==> InDay(n, today))
  {
    if MissingOrBlank(question) then Reply(PleaseType)
    else if listing == [] then Reply(NoNotesYet)
    else
      var q := question.value;
      var about := AboutToday(q);
      var cands := Candidates(listing, about, today);
      if cands == [] then
        if about then Consult(q, []) else Reply(NoEmbeddedNotes)
      else
        var ranked := ScoredCandidates(svc, listing, q, today);
        if ranked == [] then Reply(NoMatch)
        else
          var top := TopK(ranked, ContextLimit);
          var ctx := NotesOf(top);
          forall n | n in ctx
            ensures n in listing && HasEmbedding(n) && |VectorOf(svc, n)| > 0 && (about ==> InDay(n, today))
          {
            var i :| 0 <= i < |ctx| && ctx[i] == n;
            assert top[i] in ranked;
            ScoreAllMembers(svc, svc.embedQuery(q), cands, about, today, top[i]);
          }
          Consult(q, ctx)
  }

  /** The reply of `answerQuestion`. */
  function AnswerText(svc: Services, listing: seq<Note>, question: Option<string>, today: int): string
    requires svc.Valid()
  {
    Execute(svc, AnswerQuestion(svc, listing, question, today))
  }

  /** Whenever the scan of `findMostRelevantNote` finds a note, that note
      leads the context `answerQuestion` hands to the model, so the note the
      UI shows is the first one the answer is grounded in. */
  lemma BestNoteLeadsContext(svc: Services, listing: seq<Note>, question: Option<string>, today: int, i: int)
    requires svc.Valid()
    requires IsBestAt(Ranked(svc, listing, question, today), i)
    ensures var p := AnswerQuestion(svc, listing, question, today);
      p.Consult? && |p.context| > 0 && p.context[0] == Ranked(svc, listing, question, today)[i].note
  {
    var ranked := Ranked(svc, listing, question, today);
    BestIsSortHead(ranked, i);
    var p := AnswerQuestion(svc, listing, question, today);
    assert IsStableDescSort(ranked, SortDesc(ranked));
    assert p.context == NotesOf(SortDesc(ranked)[..|p.context|]);
  }

  /** When the question embedding comes back empty, every similarity is 0,
      so every candidate scores 0 and the context is simply the first
      candidates in listing order: a failed embedding does not empty the
      context. */
  lemma EmptyQueryVectorKeepsListingOrder(svc: Services, listing: seq<Note>, question: Option<string>, today: int)
    requires svc.Valid()
    requires !MissingOrBlank(question) && svc.embedQuery(question.value) == []
    requires Ranked(svc, listing, question, today) != []
    ensures var p := AnswerQuestion(svc, listing, question, today);
      var ranked := Ranked(svc, listing, question, today);
      p.Consult? && p.context == NotesOf(ranked[..|p.context|])
  {
    var q := question.value;
    var about := AboutToday(q);
    var ranked := Ranked(svc, listing, question, today);
    var cands := Candidates(listing, about, today);
    forall i | 0 <= i < |ranked|
      ensures ranked[i].score == 0.0
    {
      assert ranked[i] in ranked;
      ScoreAllMembers(svc, [], cands, about, today, ranked[i]);
      assert Overlap([], VectorOf(svc, ranked[i].note)) == 0;
    }
    assert SortedDesc(ranked);
    assert IsStableDescSort(ranked, ranked);
  }

  /** A question with no embedded notes at all is never answered from
      notes: either a canned reply or an empty context. */
  lemma NoEmbeddedNoContext(svc: Services, listing: seq<Note>, question: Option<string>, today: int)
    requires svc.Valid()
    requires forall n :: n in listing ==> !HasEmbedding(n)
    ensures var p := AnswerQuestion(svc, listing, question, today);
      p.Consult? ==> p.context == []
  {
    if !MissingOrBlank(question) && listing != [] {
      NothingEmbeddedNoCandidates(listing, AboutToday(question.value), today);
    }
  }

  /** `q == null || q.trim().isEmpty()`. */
  predicate TrimEmpty(question: Option<string>)
  {
    question.None? || Trim(question.value) == ""
  }

  /** The two emptiness tests of the flows disagree both ways: U+2000 is
      whitespace but above U+0020, so `trim` keeps it; U+0001 is not
      whitespace but `trim` removes it. */
  lemma BlankAndTrimEmptyDiffer()
    ensures MissingOrBlank(Some([0x2000 as char])) && !TrimEmpty(Some([0x2000 as char]))
    ensures !MissingOrBlank(Some([0x01 as char])) && TrimEmpty(Some([0x01 as char]))
  {
    var s := [0x2000 as char];
    TrimStartFixed(s);
    TrimEndFixed(s);
    var t := [0x01 as char];
    assert TrimStart(t) == TrimStart(t[1..]);
    assert !IsWhitespace(t[0]);
  }

  const DateDefault: string :=
    "Summarize everything important I did, thought or felt on this date. "
    + "Describe it as a narrative summary, not a to-do list."

  const DateRails: string :=
    "\n\n"
    + "Very important rules:\n"
    + "- Describe what happened and how I felt.\n"
    + "- Do NOT turn complaints or observations into tasks unless I explicitly said I plan to act on them.\n"
    + "- If I complain about something that is someone else's responsibility "
    + "  (for example, a dirty corporate shower), mention it only as part of the story, "
    + "  and do NOT say that I should clean or fix it.\n"
    + "- Only list concrete tasks if I clearly wrote that I need or intend to do them."

  /** The question as given, or `fallback` when it is missing or trims to
      nothing. */
  function OrDefault(question: Option<string>, fallback: string): (r: string)
    ensures TrimEmpty(question) ==> r == fallback
    ensures !TrimEmpty(question) ==> r == question.value && Trim(r) != ""
  {
    if TrimEmpty(question) then fallback else question.value
  }

  /** `answerQuestionForDate`. It throws where `findNotesForDate` does, on
      `LocalDate.MAX`. With no note on `day` it is exactly the generic
      flow. Otherwise the model sees every note of that day, in listing
      order and without a cap, and a question that starts with the user's
      question (or the narrative-summary default) and ends with the rules
      against inventing tasks. */
  function AnswerQuestionForDate(svc: Services, listing: seq<Note>, question: Option<string>, day: int, today: int): (r: Result<Plan, Thrown>)
    requires svc.Valid()
    ensures r.Failure? <==> day >= MaxDay
    ensures r.Failure? ==> r.error == DateTimeRange(day + 1)
    ensures day < MaxDay && NotesOnDay(listing, day) == [] ==>
      r == Success(AnswerQuestion(svc, listing, question, today))
    ensures day < MaxDay && NotesOnDay(listing, day) != [] ==>
      && r.Success? && r.value.Consult?
      && r.value.question == OrDefault(question, DateDefault) + DateRails
      && (forall n :: n in r.value.context <==> n in listing && n.createdAt.Some? && DayOf(n.createdAt.value) == day)
  {
    match FindNotesForDate(listing, day)
    case Failure(e) => Failure(e)
    case Success(ctx) =>
      if ctx == [] then Success(AnswerQuestion(svc, listing, question, today))
      else Success(Consult(OrDefault(question, DateDefault) + DateRails, ctx))
  }

  /** On a day with notes the date flow never hands the model a note from
      another day, and never answers with a canned reply. */
  lemma DateFlowStaysOnDay(svc: Services, listing: seq<Note>, question: Option<string>, day: int, today: int)
    requires svc.Valid()
    requires day < MaxDay && NotesOnDay(listing, day) != []
    ensures var r := AnswerQuestionForDate(svc, listing, question, day, today);
      && r.Success? && r.value.Consult? && |r.value.context| > 0
      && (forall n :: n in r.value.context ==> InDay(n, day))
      && r.value.question[|r.value.question| - |DateRails|..] == DateRails
  {
    var p := AnswerQuestionForDate(svc, listing, question, day, today).value;
    forall n | n in p.context
      ensures InDay(n, day)
    {
      InDaySameDay(n, day);
    }
    var base := OrDefault(question, DateDefault);
    assert p.question == base + DateRails;
    assert (base + DateRails)[|base|..] == DateRails;
  }

  const NoteDefault: string :=
    "Summarize this note in a few sentences. "
    + "Capture what I did, thought or felt, not a list of orders for me."

  const NoteRails: string :=
    "\n\n"
    + "Rules:\n"
    + "- If I describe something unpleasant (e.g. a dirty shower), treat it as an observation.\n"
    + "- Only turn something into a task if I clearly wrote it as a plan, intention or reminder."

  /** `answerQuestionForNote`: an unknown id throws "Note not found: <id>";
      otherwise the model sees that one note and the user's question (or
      the summary default) followed by the observation-not-task rules. */
  function AnswerQuestionForNote(store: map<int, Note>, question: Option<string>, id: int): (r: Result<Plan, Thrown>)
    ensures id !in store <==> r.Failure?
    ensures id !in store ==> r == Failure(IllegalArgument("Note not found: " + IntToString(id)))
    ensures id in store ==>
      r == Success(Consult(OrDefault(question, NoteDefault) + NoteRails, [store[id]]))
  {
    if id !in store then Failure(IllegalArgument("Note not found: " + IntToString(id)))
    else Success(Consult(OrDefault(question, NoteDefault) + NoteRails, [store[id]]))
  }

  /** The note flow is grounded in exactly the asked-for note, and its
      question starts with the user's own question when there is one and
      always ends with the rules. */
  lemma NoteFlowGrounding(store: map<int, Note>, question: Option<string>, id: int)
    requires WellKeyed(store) && id in store
    ensures var p := AnswerQuestionForNote(store, question, id).value;
      && p.Consult? && |p.context| == 1 && p.context[0].id == id
      && |p.question| >= |NoteRails| && p.question[|p.question| - |NoteRails|..] == NoteRails
      && (!TrimEmpty(question) ==> p.question[..|question.value|] == question.value)
      && (TrimEmpty(question) ==> p.question[..|NoteDefault|] == NoteDefault)
  {
    var base := OrDefault(question, NoteDefault);
    var p := AnswerQuestionForNote(store, question, id).value;
    assert p.question == base + NoteRails;
    assert (base + NoteRails)[|base|..] == NoteRails;
    assert (base + NoteRails)[..|base|] == base;
  }

  /** A missing question and a whitespace-only one ask the same thing. */
  lemma NoteFlowBlankIsMissing(store: map<int, Note>, s: string, id: int)
    requires Trim(s) == ""
    ensures AnswerQuestionForNote(store, Some(s), id) == AnswerQuestionForNote(store, None, id)
  {
  }
}
