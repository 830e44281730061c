/** `POST /chat`: echoes the stored notes and the question back as one
    context string; no model is called. */
module ChatController {
  import opened Wrappers
  import opened JavaText
  import opened Sequences
  import opened Domain
  import opened NoteStore

  const Opening: string := "Previous thoughts:\n"
  const QuestionLead: string := "\nNow, here's what I think about your question: "

  function Bullet(n: Note): string
  {
    "- " + n.text + "\n"
  }

  /** One bullet line per note, in listing order. */
  function Lines(notes: seq<Note>): string
  {
    if notes == [] then "" else Bullet(notes[0]) + Lines(notes[1..])
  }

  /** The bullets of a concatenation are the concatenated bullets. */
  lemma {:induction false} LinesAppend(a: seq<Note>, b: seq<Note>)
    ensures Lines(a + b) == Lines(a) + Lines(b)
  {
    if a == [] {
      assert a + b == b;
    } else {
      var ab := a + b;
      assert ab[0] == a[0];
      assert ab[1..] == a[1..] + b;
      LinesAppend(a[1..], b);
      var e, x, y := Bullet(a[0]), Lines(a[1..]), Lines(b);
      assert Lines(ab) == e + (x + y);
      assert Lines(a) == e + x;
      ConcatAssociative(e, x, y);
    }
  }

  /** Each note adds its text plus three characters. */
  lemma {:induction false} LinesLength(notes: seq<Note>)
    ensures |Lines(notes)| == |notes| * 3 + SumTextLengths(notes)
  {
    if notes != [] {
      LinesLength(notes[1..]);
    }
  }

  function SumTextLengths(notes: seq<Note>): nat
  {
    if notes == [] then 0 else |notes[0].text| + SumTextLengths(notes[1..])
  }

  /** The reply text: the opening, one bullet per listed note, and the
      question (printed as "null" when missing) after the lead-in. */
  function ChatContext(listing: seq<Note>, question: Option<string>): (r: string)
    ensures |r| == |Opening| + |Lines(listing)| + |QuestionLead| + |Show(question)|
    ensures |r| == |Opening| + 3 * |listing| + SumTextLengths(listing) + |QuestionLead| + |Show(question)|
    ensures r[..|Opening|] == Opening
    ensures r[|Opening|..|Opening| + |Lines(listing)|] == Lines(listing)
    ensures r[|r| - |QuestionLead| - |Show(question)|..] == QuestionLead + Show(question)
  {
    var lines := Lines(listing);
    LinesLength(listing);
    var r := Opening + lines + QuestionLead + Show(question);
    assert r == Opening + lines + (QuestionLead + Show(question));
    r
  }

  /** `chat`: a one-entry map under "reply". */
  function Chat(listing: seq<Note>, body: map<string, string>): (r: map<string, string>)
    ensures r.Keys == {"reply"}
    ensures r["reply"] == ChatContext(listing, if "question" in body then Some(body["question"]) else None)
  {
    map["reply" := ChatContext(listing, if "question" in body then Some(body["question"]) else None)]
  }

  /** With nothing stored, the reply is the opening directly followed by
      the question. */
  lemma ChatOnEmptyStore(store: Store, listing: seq<Note>, question: Option<string>)
    requires WellKeyed(store) && IsListing(store, listing) && store == map[]
    ensures ChatContext(listing, question) == Opening + QuestionLead + Show(question)
  {
    ListingMembers(store, listing);
  }
}
