/** The persisted note, the clock's units, and the external collaborators
    the core calls out to (embedding service, vector parser, chat endpoint,
    square root, timestamp rendering, ISO date parsing). */
module Domain {
  import opened Wrappers
  import Similarity

  /** Timestamps are nanoseconds since local midnight of day 0; a day
      number counts local calendar days from the same origin. */
  const NanosPerDay: int := 86_400_000_000_000

  /** The local calendar day a timestamp falls on (`toLocalDate`). Dafny's
      division rounds toward negative infinity for a positive divisor,
      which is what the calendar does before day 0 as well. */
  function DayOf(ts: int): int
  {
    ts / NanosPerDay
  }

  /** `atStartOfDay`. */
  function StartOfDay(day: int): int
  {
    day * NanosPerDay
  }

  /** `LocalDate.MAX`, +999999999-12-31, as a day number: the last day that
      has a successor is the one before it. */
  const MaxDay: int := 365_241_780_471

  /** A timestamp lies in the half-open window of its own day and no other. */
  lemma DayWindow(ts: int, day: int)
    ensures StartOfDay(day) <= ts < StartOfDay(day + 1) <==> DayOf(ts) == day
  {
    var d := DayOf(ts);
    assert StartOfDay(d) <= ts < StartOfDay(d + 1);
    if day < d {
      assert StartOfDay(day + 1) <= StartOfDay(d);
    } else if day > d {
      assert StartOfDay(d + 1) <= StartOfDay(day);
    }
  }

  /** A note as stored. `tag`, `createdAt` and `embedding` are nullable
      columns; `embedding` is the serialised vector text. */
  datatype Note = Note(
    id: int,
    text: string,
    tag: Option<string>,
    createdAt: Option<int>,
    embedding: Option<string>)

  /** What the chat completion endpoint hands back once parsed by Jackson:
      no choices array (or an empty one), or the first choice, whose
      `message.content` node may be missing. `Some(t)` carries `asText()`. */
  datatype Choices = NoChoices | FirstChoice(content: Option<string>)

  /** The response body: text Jackson cannot parse (with the exception's
      message), or a parsed tree. */
  datatype ChatBody = Unparsable(message: Option<string>) | Parsed(choices: Choices)

  /** One POST to the chat endpoint: it raised (transport failure, or an
      HTTP error surfaced as an exception), or it answered with a status
      code and a possibly absent body. */
  datatype ChatResponse =
    | Raised(message: Option<string>)
    | Answered(status: int, body: Option<ChatBody>)

  /** The exceptions the core throws, by Java class, with their messages;
      `DateTimeRange` is the `DateTimeException` of a date past
      `LocalDate.MAX`, carrying the day number it rejected. */
  datatype Thrown =
    | IllegalArgument(message: string)
    | RuntimeError(message: string)
    | DateTimeParse(parsedText: string)
    | DateTimeRange(epochDay: int)

  /** The outside world, as total functions. `embedNote` is the note
      embedding call that yields the serialised vector ("[]" on failure);
      `embedQuery` yields the question vector, possibly empty; `parse`
      reads a serialised vector back, empty when it cannot; `chat` maps a
      (system prompt, user prompt) pair to the endpoint's response;
      `showTime` is `LocalDateTime.toString`; `parseDate` is
      `LocalDate.parse`, `None` when it throws. */
  datatype Services = Services(
    embedNote: string -> string,
    embedQuery: string -> seq<real>,
    parse: string -> seq<real>,
    sqrt: real -> real,
    chat: (string, string) -> ChatResponse,
    showTime: int -> string,
    parseDate: string -> Option<int>)
  {
    /** `sqrt` is the non-negative square root on the non-negative reals. */
    ghost predicate Valid()
    {
      Similarity.IsSqrt(sqrt)
    }
  }
}
