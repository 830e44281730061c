/** Choosing and scoring the notes a question is answered from: the
    "today" test, the candidate filter, per-note scores, the day window of
    the explicit-date flow, and the strict-`>` scan behind the "most relevant
    note" shown in the UI. */
module Retrieval {
  import opened Wrappers
  import opened JavaText
  import opened Sequences
  import opened Domain
  import opened Similarity
  import opened Ranking

  /** A question is about today when its lower-cased text contains "today"
      anywhere, also inside a longer word. */
  predicate AboutToday(q: string)
  {
    Contains(Lower(q), "today")
  }

  /** The "today" test holds exactly when "today" occurs somewhere in the
      lower-cased question, and it ignores case: lower-casing the question
      first changes nothing. */
  lemma AboutTodayMeaning(q: string)
    ensures AboutToday(q) <==> exists i :: OccursAt(Lower(q), "today", i)
    ensures AboutToday(Lower(q)) == AboutToday(q)
  {
    ContainsIffOccurs(Lower(q), "today");
    assert Lower(Lower(q)) == Lower(q);
  }

  /** The embedding column is set and not blank. */
  predicate HasEmbedding(n: Note)
  {
    n.embedding.Some? && !IsBlank(n.embedding.value)
  }

  /** `!ts.isBefore(startToday) && ts.isBefore(endToday)`. */
  predicate InDay(n: Note, day: int)
  {
    n.createdAt.Some? && !(n.createdAt.value < StartOfDay(day)) && n.createdAt.value < StartOfDay(day + 1)
  }

  /** The two stream filters of the retrieval paths. */
  predicate IsCandidate(n: Note, aboutToday: bool, today: int)
  {
    HasEmbedding(n) && (!aboutToday || InDay(n, today))
  }

  /** The candidates, in listing order. */
  function Candidates(listing: seq<Note>, aboutToday: bool, today: int): (r: seq<Note>)
    ensures |r| <= |listing|
    ensures forall n :: n in r <==> n in listing && IsCandidate(n, aboutToday, today)
  {
    if listing == [] then []
    else
      (if IsCandidate(listing[0], aboutToday, today) then [listing[0]] else [])
      + Candidates(listing[1..], aboutToday, today)
  }

  /** Filtering distributes over concatenation, so the candidates keep the
      listing's relative order. */
  lemma {:induction false} CandidatesAppend(a: seq<Note>, b: seq<Note>, aboutToday: bool, today: int)
    ensures Candidates(a + b, aboutToday, today) == Candidates(a, aboutToday, today) + Candidates(b, aboutToday, today)
  {
    if a != [] {
      var ab := a + b;
      assert ab[0] == a[0];
      assert ab[1..] == a[1..] + b;
      CandidatesAppend(a[1..], b, aboutToday, today);
      var e := if IsCandidate(a[0], aboutToday, today) then [a[0]] else [];
      var x, y := Candidates(a[1..], aboutToday, today), Candidates(b, aboutToday, today);
      assert Candidates(ab, aboutToday, today) == e + (x + y);
      assert Candidates(a, aboutToday, today) == e + x;
      ConcatAssociative(e, x, y);
    } else {
      assert a + b == b;
    }
  }

  /** A store without embedded notes has no candidates. */
  lemma {:induction false} NothingEmbeddedNoCandidates(listing: seq<Note>, aboutToday: bool, today: int)
    requires forall n :: n in listing ==> !HasEmbedding(n)
    ensures Candidates(listing, aboutToday, today) == []
  {
    if listing != [] {
      assert listing[0] in listing;
      assert forall n :: n in listing[1..] ==> n in listing;
      NothingEmbeddedNoCandidates(listing[1..], aboutToday, today);
    }
  }

  /** Today's window holds exactly the notes whose calendar day is today. */
  lemma InDaySameDay(n: Note, day: int)
    ensures InDay(n, day) <==> n.createdAt.Some? && DayOf(n.createdAt.value) == day
  {
    if n.createdAt.Some? {
      DayWindow(n.createdAt.value, day);
    }
  }

  /** `ChronoUnit.DAYS.between(createdAt.toLocalDate(), today)`, 0 for an
      undated note: a dated note was written during the day `r` days
      before `today` (after it, for negative `r`). */
  function DaysOld(n: Note, today: int): (r: int)
    ensures n.createdAt.None? ==> r == 0
    ensures n.createdAt.Some? ==> StartOfDay(today - r) <= n.createdAt.value < StartOfDay(today - r + 1)
  {
    if n.createdAt.Some? then
      var d := DayOf(n.createdAt.value);
      DayWindow(n.createdAt.value, d);
      today - d
    else 0
  }

  /** Restricting to today's notes makes the recency weight irrelevant: the
      fixed weight 1 of "today" questions equals the weight the generic
      formula gives those notes. */
  lemma TodayWeightAgrees(n: Note, today: int)
    requires InDay(n, today)
    ensures DaysOld(n, today) == 0
    ensures RecencyWeight(false, DaysOld(n, today)) == RecencyWeight(true, DaysOld(n, today))
  {
    InDaySameDay(n, today);
  }

  /** The parsed embedding of a note (empty when it has none). */
  function VectorOf(svc: Services, n: Note): seq<real>
  {
    if n.embedding.Some? then svc.parse(n.embedding.value) else []
  }

  /** Similarity to the question vector times the recency weight. */
  function NoteScore(svc: Services, qVec: seq<real>, n: Note, aboutToday: bool, today: int): real
    requires svc.Valid()
  {
    Score(Cosine(svc.sqrt, qVec, VectorOf(svc, n)), aboutToday, DaysOld(n, today))
  }

  /** Scores every candidate whose vector parses to something non-empty,
      dropping the others, in candidate order. */
  function ScoreAll(svc: Services, qVec: seq<real>, cands: seq<Note>, aboutToday: bool, today: int): (r: seq<Scored>)
    requires svc.Valid()
    ensures |r| <= |cands|
    ensures forall i :: 0 <= i < |r| ==>
      && r[i].note in cands && |VectorOf(svc, r[i].note)| > 0
      && r[i].score == NoteScore(svc, qVec, r[i].note, aboutToday, today)
  {
    if cands == [] then []
    else
      var n := cands[0];
      (if |VectorOf(svc, n)| == 0 then [] else [Scored(n, NoteScore(svc, qVec, n, aboutToday, today))])
      + ScoreAll(svc, qVec, cands[1..], aboutToday, today)
  }

  /** An entry is scored exactly when its note is a candidate with a
      non-empty vector, and it carries that note's score. */
  lemma {:induction false} ScoreAllMembers(svc: Services, qVec: seq<real>, cands: seq<Note>, aboutToday: bool, today: int, e: Scored)
    requires svc.Valid()
    ensures e in ScoreAll(svc, qVec, cands, aboutToday, today) <==>
      e.note in cands && |VectorOf(svc, e.note)| > 0 && e.score == NoteScore(svc, qVec, e.note, aboutToday, today)
  {
    if cands != [] {
      ScoreAllMembers(svc, qVec, cands[1..], aboutToday, today, e);
      assert cands == [cands[0]] + cands[1..];
    }
  }

  lemma {:induction false} ScoreAllAppend(svc: Services, qVec: seq<real>, a: seq<Note>, b: seq<Note>, aboutToday: bool, today: int)
    requires svc.Valid()
    ensures ScoreAll(svc, qVec, a + b, aboutToday, today)
            == ScoreAll(svc, qVec, a, aboutToday, today) + ScoreAll(svc, qVec, b, aboutToday, today)
  {
    if a != [] {
      var ab := a + b;
      assert ab[0] == a[0];
      assert ab[1..] == a[1..] + b;
      ScoreAllAppend(svc, qVec, a[1..], b, aboutToday, today);
      var n := a[0];
      var e := if |VectorOf(svc, n)| == 0 then [] else [Scored(n, NoteScore(svc, qVec, n, aboutToday, today))];
      var x, y := ScoreAll(svc, qVec, a[1..], aboutToday, today), ScoreAll(svc, qVec, b, aboutToday, today);
      assert ScoreAll(svc, qVec, ab, aboutToday, today) == e + (x + y);
      assert ScoreAll(svc, qVec, a, aboutToday, today) == e + x;
      ConcatAssociative(e, x, y);
    } else {
      assert a + b == b;
    }
  }

  lemma ScoreAllOne(svc: Services, qVec: seq<real>, n: Note, aboutToday: bool, today: int)
    requires svc.Valid()
    ensures ScoreAll(svc, qVec, [n], aboutToday, today)
            == if |VectorOf(svc, n)| == 0 then [] else [Scored(n, NoteScore(svc, qVec, n, aboutToday, today))]
  {
    assert [n][1..] == [];
  }

  /** The scored candidates of a (non-blank) question, in listing order. */
  function ScoredCandidates(svc: Services, listing: seq<Note>, q: string, today: int): seq<Scored>
    requires svc.Valid()
  {
    var about := AboutToday(q);
    ScoreAll(svc, svc.embedQuery(q), Candidates(listing, about, today), about, today)
  }

  /** What both retrieval paths rank: nothing for a missing question or an
      empty store, the scored candidates otherwise. */
  function Ranked(svc: Services, listing: seq<Note>, question: Option<string>, today: int): seq<Scored>
    requires svc.Valid()
  {
    if MissingOrBlank(question) || listing == [] then [] else ScoredCandidates(svc, listing, question.value, today)
  }

  /** `findMostRelevantNote`: scans the candidates in listing order, skips
      those whose vector is empty, and replaces the best so far only on a
      strictly higher score (the first score always wins, as against
      negative infinity). It finds nothing for a missing question, an empty
      store, or when nothing scores; otherwise it returns the note of the
      first maximal entry of the ranked candidates. */
  method FindMostRelevantNote(svc: Services, listing: seq<Note>, question: Option<string>, today: int)
    returns (best: Option<Note>)
    requires svc.Valid()
    ensures MissingOrBlank(question) || listing == [] ==> best.None?
    ensures best.None? <==> Ranked(svc, listing, question, today) == []
    ensures best.Some? ==> exists i :: IsBestAt(Ranked(svc, listing, question, today), i)
                                       && Ranked(svc, listing, question, today)[i].note == best.value
  {
    if question.None? || IsBlank(question.value) {
      return None;
    }
    if |listing| == 0 {
      return None;
    }
    var q := question.value;
    var about := AboutToday(q);
    var cands := Candidates(listing, about, today);
    if |cands| == 0 {
      return None;
    }
    best := ScanBest(svc, svc.embedQuery(q), cands, about, today);
  }

  /** The loop of `findMostRelevantNote` over non-empty candidates. */
  method ScanBest(svc: Services, qVec: seq<real>, cands: seq<Note>, about: bool, today: int)
    returns (best: Option<Note>)
    requires svc.Valid()
    ensures best.None? <==> ScoreAll(svc, qVec, cands, about, today) == []
    ensures best.Some? ==> exists i :: IsBestAt(ScoreAll(svc, qVec, cands, about, today), i)
                                       && ScoreAll(svc, qVec, cands, about, today)[i].note == best.value
  {
    best := None;
    var bestScore := 0.0;
    ghost var sc: seq<Scored> := [];
    ghost var bestIdx := 0;
    var k := 0;
    while k < |cands|
      invariant 0 <= k <= |cands|
      invariant sc == ScoreAll(svc, qVec, cands[..k], about, today)
      invariant Leads(sc, best, bestScore, bestIdx)
    {
      var n := cands[k];
      assert cands[..k + 1] == cands[..k] + [n];
      ScoreAllAppend(svc, qVec, cands[..k], [n], about, today);
      ScoreAllOne(svc, qVec, n, about, today);
      var v := VectorOf(svc, n);
      if |v| > 0 {
        var s := NoteScore(svc, qVec, n, about, today);
        best, bestScore, bestIdx := Consider(sc, best, bestScore, bestIdx, Scored(n, s));
        sc := sc + [Scored(n, s)];
      }
      k := k + 1;
    }
    assert cands[..k] == cands;
  }

  /** The scan's state after the entries `sc`: nothing found exactly when
      nothing scored, and otherwise the entry at `idx` is the first maximal
      one and carries the kept note and score. */
  ghost predicate Leads(sc: seq<Scored>, best: Option<Note>, bestScore: real, idx: int)
  {
    && (best.None? <==> sc == [])
    && (best.Some? ==> IsBestAt(sc, idx) && sc[idx].note == best.value && sc[idx].score == bestScore)
  }

  /** One iteration of the scan: the entry replaces the best so far when
      there is none yet or when it scores strictly higher. */
  method Consider(ghost sc: seq<Scored>, best: Option<Note>, bestScore: real, ghost idx: int, e: Scored)
    returns (best': Option<Note>, bestScore': real, ghost idx': int)
    requires Leads(sc, best, bestScore, idx)
    ensures Leads(sc + [e], best', bestScore', idx')
    ensures best'.Some?
  {
    BestAfterAppend(sc, idx, e, best.Some?);
    if best.None? || e.score > bestScore {
      best', bestScore', idx' := Some(e.note), e.score, |sc|;
    } else {
      best', bestScore', idx' := best, bestScore, idx;
    }
  }

  /** One step of the scan: appending an entry keeps the best index unless
      the new entry scores strictly higher, in which case it becomes best. */
  lemma BestAfterAppend(sc: seq<Scored>, i: int, e: Scored, some: bool)
    requires some ==> IsBestAt(sc, i)
    requires !some ==> sc == []
    ensures !some || e.score > sc[i].score ==> IsBestAt(sc + [e], |sc|)
    ensures some && e.score <= sc[i].score ==> IsBestAt(sc + [e], i)
  {
  }

  /** BETWEEN `date 00:00` AND `date+1 00:00 - 1ns`, both ends inclusive. */
  predicate InDateWindow(n: Note, day: int)
  {
    n.createdAt.Some? && StartOfDay(day) <= n.createdAt.value <= StartOfDay(day + 1) - 1
  }

  /** The inclusive window of the date flow selects the same notes as the
      half-open window of the "today" filter. */
  lemma DateWindowIsDay(n: Note, day: int)
    ensures InDateWindow(n, day) <==> InDay(n, day)
  {
  }

  /** `findByCreatedAtBetween` over the window of `day`: the notes created
      on that day, in listing order (the derived query has no ORDER BY; the
      listing order stands in for the database's). */
  function NotesOnDay(listing: seq<Note>, day: int): (r: seq<Note>)
    ensures |r| <= |listing|
    ensures forall n :: n in r <==> n in listing && n.createdAt.Some? && DayOf(n.createdAt.value) == day
    ensures forall i :: 0 <= i < |r| ==> r[i].createdAt.Some?
  {
    if listing == [] then []
    else
      InDaySameDay(listing[0], day);
      (if InDateWindow(listing[0], day) then [listing[0]] else []) + NotesOnDay(listing[1..], day)
  }

  /** `findNotesForDate`: the window's end is computed with `plusDays(1)`,
      which throws for `LocalDate.MAX` (and a day past it is no date at
      all); every earlier day yields that day's notes. */
  function FindNotesForDate(listing: seq<Note>, day: int): (r: Result<seq<Note>, Thrown>)
    ensures r.Failure? <==> day >= MaxDay
    ensures r.Failure? ==> r.error == DateTimeRange(day + 1)
    ensures r.Success? ==>
      && r.value == NotesOnDay(listing, day)
      && (forall n :: n in r.value <==> n in listing && n.createdAt.Some? && DayOf(n.createdAt.value) == day)
  {
    if day >= MaxDay then Failure(DateTimeRange(day + 1)) else Success(NotesOnDay(listing, day))
  }
}
