/** The text side of `callChatModel`: the fixed system prompt, the user
    prompt built from the question and the context notes, and the mapping
    of the endpoint's response to the reply string. */
module ChatPrompt {
  import opened Wrappers
  import opened JavaText
  import opened Sequences
  import opened Domain

  const SystemPrompt: string :=
    "You are Thynkah, a personal memory and planning assistant. "
    + "You ONLY know what is written in the notes I give you. "
    + "Never invent facts, events, or tasks that are not clearly implied by those notes.\n\n"
    + "When the user asks what to do today (or a similar planning question):\n"
    + "- Suggest only actions the user can realistically do themselves.\n"
    + "- Do NOT tell them to clean, fix, or change things they do not own or control "
    + "  (for example, a corporate or public shower, company facilities, other people's property).\n"
    + "- Prefer concrete, next-step actions over vague advice.\n"
    + "- If a note describes something that already happened or is clearly outside their control, "
    + "  you may mention it as context but must not turn it into a todo item.\n\n"
    + "If the provided notes are empty or clearly unrelated to the question, "
    + "say explicitly that there is nothing relevant in their notes yet instead of guessing."

  const QuestionLabel: string := "User question:\n"

  const Instruction: string :=
    "Use ONLY the notes below to answer. "
    + "If they don't contain enough information, say so explicitly.\n\n"

  const ContextHeader: string := "Here are the user's most relevant notes (most recent / relevant first):\n\n"

  const NoContext: string := "There are NO relevant notes for this query.\n"

  const UnknownDate: string := "an unknown date"

  /** One context note: its creation time (or "an unknown date") and text. */
  function NoteEntry(n: Note, showTime: int -> string): string
  {
    "- Note from " + (if n.createdAt.Some? then showTime(n.createdAt.value) else UnknownDate) + ":\n"
    + n.text + "\n\n"
  }

  /** The entries of all context notes, in the given order. */
  function Entries(ctx: seq<Note>, showTime: int -> string): string
  {
    if ctx == [] then "" else NoteEntry(ctx[0], showTime) + Entries(ctx[1..], showTime)
  }

  /** Entries of a concatenation are the concatenated entries: each note
      contributes exactly its own entry, in order. */
  lemma {:induction false} EntriesAppend(a: seq<Note>, b: seq<Note>, showTime: int -> string)
    ensures Entries(a + b, showTime) == Entries(a, showTime) + Entries(b, showTime)
  {
    if a == [] {
      assert a + b == b;
    } else {
      var ab := a + b;
      assert ab[0] == a[0];
      assert ab[1..] == a[1..] + b;
      EntriesAppend(a[1..], b, showTime);
      var e, x, y := NoteEntry(a[0], showTime), Entries(a[1..], showTime), Entries(b, showTime);
      assert Entries(ab, showTime) == e + (x + y);
      assert Entries(a, showTime) == e + x;
      ConcatAssociative(e, x, y);
    }
  }

  /** The context block: the "no notes" line for an empty context, the
      header and the entries otherwise. */
  function ContextBlock(ctx: seq<Note>, showTime: int -> string): (r: string)
    ensures r == NoContext <==> ctx == []
  {
    if ctx == [] then NoContext
    else
      var r := ContextHeader + Entries(ctx, showTime);
      assert |r| > |NoContext|;
      r
  }

  /** The user message: it opens with the labelled question and closes
      with the context block, with a blank line and the instruction in
      between. */
  function UserPrompt(q: string, ctx: seq<Note>, showTime: int -> string): (r: string)
    ensures |r| >= |QuestionLabel| + |q| + 2 + |Instruction|
    ensures r[..|QuestionLabel| + |q|] == QuestionLabel + q
    ensures r[|QuestionLabel| + |q|..|QuestionLabel| + |q| + 2 + |Instruction|] == "\n\n" + Instruction
    ensures r[|QuestionLabel| + |q| + 2 + |Instruction|..] == ContextBlock(ctx, showTime)
  {
    var head, middle, block := QuestionLabel + q, "\n\n" + Instruction, ContextBlock(ctx, showTime);
    ConcatSlices(head, middle, block);
    head + middle + block
  }

  const Unreachable: string := "I couldn't reach the AI service right now."
  const NoMeaningfulAnswer: string := "I couldn't get a meaningful answer from the AI."
  const ErrorPrefix: string := "Error while contacting AI: "

  /** `HttpStatus.is2xxSuccessful`. */
  predicate Is2xx(status: int)
  {
    200 <= status < 300
  }

  /** The reply `callChatModel` returns for an endpoint response: the
      trimmed content of the first choice when present; the "couldn't
      reach" text for a non-2xx status or no body; the "no meaningful
      answer" text when choices or content are missing; the error prefix
      and the exception's message when the call or the JSON parse threw. */
  function Classify(resp: ChatResponse): (r: string)
    ensures resp.Raised? ==> r == ErrorPrefix + Show(resp.message)
    ensures resp.Answered? && (!Is2xx(resp.status) || resp.body.None?) ==> r == Unreachable
    ensures resp.Answered? && Is2xx(resp.status) && resp.body.Some? ==>
      match resp.body.value
      case Unparsable(m) => r == ErrorPrefix + Show(m)
      case Parsed(FirstChoice(Some(t))) => r == Trim(t)
      case Parsed(_) => r == NoMeaningfulAnswer
  {
    match resp
    case Raised(m) => ErrorPrefix + Show(m)
    case Answered(status, body) =>
      if !Is2xx(status) || body.None? then Unreachable
      else
        match body.value
        case Unparsable(m) => ErrorPrefix + Show(m)
        case Parsed(NoChoices) => NoMeaningfulAnswer
        case Parsed(FirstChoice(None)) => NoMeaningfulAnswer
        case Parsed(FirstChoice(Some(t))) => Trim(t)
  }

  /** A successful reply is already trimmed, and every reply is either
      trimmed model text, one of the two canned texts, or an error report. */
  lemma ClassifyOutcomes(resp: ChatResponse)
    ensures var r := Classify(resp);
      || r == Unreachable
      || r == NoMeaningfulAnswer
      || (|r| >= |ErrorPrefix| && r[..|ErrorPrefix|] == ErrorPrefix)
      || Trim(r) == r
  {
    if resp.Answered? && Is2xx(resp.status) && resp.body.Some? {
      match resp.body.value {
        case Parsed(FirstChoice(Some(t))) => TrimIdempotent(t);
        case _ =>
      }
    }
  }

  /** The whole `callChatModel`: ask the endpoint with the system prompt
      and the user prompt, and classify what comes back. Whatever the
      endpoint does, the reply is trimmed model text, one of the two canned
      texts, or an error report. */
  function CallChatModel(svc: Services, q: string, ctx: seq<Note>): (r: string)
    ensures || r == Unreachable
            || r == NoMeaningfulAnswer
            || (|r| >= |ErrorPrefix| && r[..|ErrorPrefix|] == ErrorPrefix)
            || Trim(r) == r
  {
    var resp := svc.chat(SystemPrompt, UserPrompt(q, ctx, svc.showTime));
    ClassifyOutcomes(resp);
    Classify(resp)
  }
}
