/** The interval accountant: one day's markers are paired by position, each marker loses
    its one-character kind tag, pairs with an empty side are dropped, and the kept pairs'
    `end - start` differences are summed in minutes. */
module Accounting {
  import opened Errors
  import opened Clock

  /** The event log: ISO date to that day's markers, in the order they were recorded. */
  type Log = map<string, seq<string>>

  /** The elements at even positions (0, 2, 4, ...): the candidate starts. */
  function EvenIndexed<T>(s: seq<T>): (r: seq<T>)
    ensures |r| == (|s| + 1) / 2
    ensures forall i :: 0 <= i < |r| ==> r[i] == s[2 * i]
    decreases |s|
  {
    if |s| == 0 then [] else [s[0]] + EvenIndexed(if |s| >= 2 then s[2..] else [])
  }

  /** The elements at odd positions (1, 3, 5, ...): the candidate ends. */
  function OddIndexed<T>(s: seq<T>): (r: seq<T>)
    ensures |r| == |s| / 2
    ensures forall i :: 0 <= i < |r| ==> r[i] == s[2 * i + 1]
  {
    if |s| == 0 then [] else EvenIndexed(s[1..])
  }

  /** Pairs by position, stopping at the end of the shorter sequence. */
  function Zip<A, B>(a: seq<A>, b: seq<B>): (r: seq<(A, B)>)
    ensures |r| == if |a| <= |b| then |a| else |b|
    ensures forall i :: 0 <= i < |r| ==> r[i] == (a[i], b[i])
  {
    if |a| == 0 || |b| == 0 then [] else [(a[0], b[0])] + Zip(a[1..], b[1..])
  }

  /** The candidate (start, end) pairs of a day: purely positional, the kind tags are not
      looked at, and an unmatched trailing marker is dropped. */
  function Candidates(day: seq<string>): (r: seq<(string, string)>)
    ensures |r| == |day| / 2
    ensures forall i :: 0 <= i < |r| ==> r[i] == (day[2 * i], day[2 * i + 1])
  {
    Zip(EvenIndexed(day), OddIndexed(day))
  }

  /** The marker without its first character, whatever that character is; an empty
      marker stays empty. */
  function Strip(m: string): string {
    if |m| == 0 then "" else m[1..]
  }

  function StripPair(p: (string, string)): (string, string) {
    (Strip(p.0), Strip(p.1))
  }

  /** Every pair with the kind tag removed from both sides. */
  function Stripped(ps: seq<(string, string)>): (r: seq<(string, string)>)
    ensures |r| == |ps|
    ensures forall i :: 0 <= i < |r| ==> r[i] == StripPair(ps[i])
  {
    if ps == [] then [] else [StripPair(ps[0])] + Stripped(ps[1..])
  }

  predicate BothNonEmpty(p: (string, string)) {
    p.0 != "" && p.1 != ""
  }

  /** Keeps, in order, the pairs with no empty side (KeptExactly states which). */
  function Kept(ps: seq<(string, string)>): (r: seq<(string, string)>)
    ensures |r| <= |ps|
  {
    if ps == [] then []
    else (if BothNonEmpty(ps[0]) then [ps[0]] else []) + Kept(ps[1..])
  }

  /** The signed duration of one pair, `end - start`; negative when the end is earlier. */
  function Diff(p: (string, string)): (r: Result<int>)
    ensures r.Ok? <==> ParseTime(p.0).Some? && ParseTime(p.1).Some?
    ensures r.Ok? ==> r.value == ParseTime(p.1).value - ParseTime(p.0).value
    ensures r.Err? ==> r.error == TimeParseError
  {
    match (ParseTime(p.0), ParseTime(p.1))
    case (Some(s), Some(e)) => Ok(e - s)
    case _ => Err(TimeParseError)
  }

  /** The sum of two partial totals; a failure on either side, the left one first, is the result. */
  function Add(x: Result<int>, y: Result<int>): Result<int> {
    match x
    case Err(e) => Err(e)
    case Ok(a) => (match y case Err(e) => Err(e) case Ok(b) => Ok(a + b))
  }

  /** The sum of the pairs' durations, starting from zero; fails when any pair fails to parse. */
  function SumDiffs(ps: seq<(string, string)>): Result<int> {
    if ps == [] then Ok(0) else Add(SumDiffs(ps[..|ps| - 1]), Diff(ps[|ps| - 1]))
  }

  /** The accountant's pipeline for one day's markers, stage by stage as the tool runs it. */
  function Pipeline(day: seq<string>): Result<int> {
    SumDiffs(Kept(Stripped(Candidates(day))))
  }

  /** What one (start, end) marker pair adds: nothing when either stripped side is empty. */
  function PairAmount(a: string, b: string): Result<int> {
    if Strip(a) == "" || Strip(b) == "" then Ok(0) else Diff((Strip(a), Strip(b)))
  }

  /** The day's total defined pair by pair from the front: the first two markers add their
      PairAmount to the total of the rest, and a single leftover marker adds nothing.
      PipelineIsAccounted shows the pipeline computes exactly this. */
  function Accounted(day: seq<string>): (r: Result<int>)
    ensures r.Err? ==> r.error == TimeParseError
    decreases |day|
  {
    if |day| < 2 then Ok(0) else Add(PairAmount(day[0], day[1]), Accounted(day[2..]))
  }

  /** The total reported for a date: fails with DateNotFound when the date is not in the log. */
  function DayTotal(log: Log, date: string): (r: Result<int>)
    ensures r == Err(DateNotFound) <==> date !in log
  {
    if date in log then Accounted(log[date]) else Err(DateNotFound)
  }

  // ---------------------------------------------------------------------------------
  // Properties of the accountant

  /** A pair of markers whose times both parse adds the signed difference of those times. */
  lemma PairAmountOfTimes(a: string, b: string, p: int, q: int)
    requires ParseTime(Strip(a)) == Some(p) && ParseTime(Strip(b)) == Some(q)
    ensures PairAmount(a, b) == Ok(q - p)
  {
  }

  /** Once the sum over a prefix of the pairs fails, the sum over all of them fails. */
  lemma {:induction false} SumDiffsErrPersists(ps: seq<(string, string)>, i: nat)
    requires i <= |ps| && SumDiffs(ps[..i]).Err?
    ensures SumDiffs(ps) == Err(TimeParseError)
    decreases |ps| - i
  {
    if i == |ps| {
      assert ps[..i] == ps;
      SumDiffsOnlyParseErrors(ps);
    } else {
      assert ps[..i + 1][..i] == ps[..i];
      SumDiffsErrPersists(ps, i + 1);
    }
  }

  /** The only failure the sum itself can produce is a time that does not parse. */
  lemma {:induction false} SumDiffsOnlyParseErrors(ps: seq<(string, string)>)
    ensures SumDiffs(ps).Err? ==> SumDiffs(ps).error == TimeParseError
  {
    if ps != [] {
      SumDiffsOnlyParseErrors(ps[..|ps| - 1]);
    }
  }

  /** The sum fails exactly when one of the pairs summed does not parse. */
  lemma {:induction false} SumDiffsErrIff(ps: seq<(string, string)>)
    ensures SumDiffs(ps).Err? <==> exists p :: p in ps && Diff(p).Err?
  {
    if ps != [] {
      var init, last := ps[..|ps| - 1], ps[|ps| - 1];
      SumDiffsErrIff(init);
      assert ps == init + [last];
    }
  }

  /** A day's total fails exactly when one of its kept pairs has a side that does not
      parse, and the failure is then `TimeParseError`. */
  lemma PipelineErr(day: seq<string>)
    ensures Pipeline(day).Err? <==> exists p :: p in Kept(Stripped(Candidates(day))) && Diff(p).Err?
    ensures Pipeline(day).Err? ==> Pipeline(day).error == TimeParseError
  {
    var ps := Kept(Stripped(Candidates(day)));
    SumDiffsErrIff(ps);
    SumDiffsOnlyParseErrors(ps);
  }

  /** The filter keeps exactly the pairs with no empty side. */
  lemma {:induction false} KeptExactly(ps: seq<(string, string)>)
    ensures forall p :: p in Kept(ps) <==> p in ps && BothNonEmpty(p)
  {
    if ps != [] {
      KeptExactly(ps[1..]);
      assert ps == [ps[0]] + ps[1..];
    }
  }

  lemma {:induction false} KeptAppend(ps: seq<(string, string)>, qs: seq<(string, string)>)
    ensures Kept(ps + qs) == Kept(ps) + Kept(qs)
  {
    if ps != [] {
      var head := if BothNonEmpty(ps[0]) then [ps[0]] else [];
      assert (ps + qs)[0] == ps[0] && (ps + qs)[1..] == ps[1..] + qs;
      KeptAppend(ps[1..], qs);
      calc {
        Kept(ps + qs);
        head + Kept(ps[1..] + qs);
        head + (Kept(ps[1..]) + Kept(qs));
        (head + Kept(ps[1..])) + Kept(qs);
        Kept(ps) + Kept(qs);
      }
    } else {
      assert ps + qs == qs;
    }
  }

  lemma StrippedAppend(ps: seq<(string, string)>, qs: seq<(string, string)>)
    ensures Stripped(ps + qs) == Stripped(ps) + Stripped(qs)
  {
  }

  /** A start and an end appended to a day of complete pairs form one more candidate. */
  lemma CandidatesAppendPair(day: seq<string>, a: string, b: string)
    requires |day| % 2 == 0
    ensures Candidates(day + [a, b]) == Candidates(day) + [(a, b)]
  {
    var c, c' := Candidates(day), Candidates(day + [a, b]);
    assert |c'| == |c| + 1;
    forall i | 0 <= i < |c'|
      ensures c'[i] == (c + [(a, b)])[i]
    {
      if i < |c| {
        assert c'[i] == (day[2 * i], day[2 * i + 1]);
      }
    }
  }

  /** The pairs kept for the day extended by a pair: those of the day, then the new pair
      itself unless one of its sides strips to the empty string. */
  lemma KeptAppendPair(day: seq<string>, a: string, b: string)
    requires |day| % 2 == 0
    ensures Kept(Stripped(Candidates(day + [a, b])))
            == Kept(Stripped(Candidates(day))) + Kept([(Strip(a), Strip(b))])
  {
    CandidatesAppendPair(day, a, b);
    StrippedAppend(Candidates(day), [(a, b)]);
    assert Stripped([(a, b)]) == [(Strip(a), Strip(b))];
    KeptAppend(Stripped(Candidates(day)), [(Strip(a), Strip(b))]);
  }

  /** Appending a start and an end to a day of complete pairs adds that pair's amount,
      and nothing at all when either marker strips to the empty string. */
  lemma PipelineAppendPair(day: seq<string>, a: string, b: string)
    requires |day| % 2 == 0
    ensures Pipeline(day + [a, b]) == Add(Pipeline(day), PairAmount(a, b))
  {
    KeptAppendPair(day, a, b);
    var ks := Kept(Stripped(Candidates(day)));
    if Strip(a) == "" || Strip(b) == "" {
      assert Kept([(Strip(a), Strip(b))]) == [];
      assert ks + [] == ks;
      match Pipeline(day) {
        case Err(_) =>
        case Ok(_) =>
      }
    } else {
      assert Kept([(Strip(a), Strip(b))]) == [(Strip(a), Strip(b))];
      assert (ks + [(Strip(a), Strip(b))])[..|ks|] == ks;
    }
  }

  /** A trailing unmatched marker is dropped by the pairing. */
  lemma PipelineTrailing(day: seq<string>, a: string)
    requires |day| % 2 == 0
    ensures Pipeline(day + [a]) == Pipeline(day)
  {
    assert Candidates(day + [a]) == Candidates(day);
  }

  /** The pipeline of slicing, zip, strip, filter and sum computes the pair-by-pair total. */
  lemma {:induction false} PipelineIsAccounted(day: seq<string>)
    ensures Pipeline(day) == Accounted(day)
    decreases |day|
  {
    var n := |day|;
    if n < 2 {
      assert Candidates(day) == [];
    } else if n % 2 == 1 {
      var prefix, a := day[..n - 1], day[n - 1];
      assert day == prefix + [a];
      assert |prefix| % 2 == 0;
      PipelineIsAccounted(prefix);
      PipelineStep(prefix, [a]);
    } else {
      var prefix, a, b := day[..n - 2], day[n - 2], day[n - 1];
      assert day == prefix + [a, b];
      assert |prefix| % 2 == 0;
      PipelineIsAccounted(prefix);
      PipelineStep(prefix, [a, b]);
    }
  }

  /** One step of PipelineIsAccounted: a day of complete pairs on which the pipeline and
      the pair-by-pair total agree, extended by one marker or by one pair. */
  lemma PipelineStep(prefix: seq<string>, tail: seq<string>)
    requires |prefix| % 2 == 0 && Pipeline(prefix) == Accounted(prefix)
    requires |tail| == 1 || |tail| == 2
    ensures Pipeline(prefix + tail) == Accounted(prefix + tail)
  {
    if |tail| == 1 {
      assert tail == [tail[0]];
      PipelineTrailing(prefix, tail[0]);
      AccountedTrailing(prefix, tail[0]);
    } else {
      assert tail == [tail[0], tail[1]];
      PipelineAppendPair(prefix, tail[0], tail[1]);
      AccountedAppendPair(prefix, tail[0], tail[1]);
    }
  }

  /** Parity flips with each element added and returns after two. */
  lemma ParityStep(n: int)
    ensures (n + 1) % 2 == 1 - n % 2 && (n + 2) % 2 == n % 2
  {
  }

  /** A non-empty day is its prefix followed by its last marker. */
  lemma LastSplit(day: seq<string>)
    requires |day| > 0
    ensures day == day[..|day| - 1] + [day[|day| - 1]]
  {
  }

  lemma AppendTwo(day: seq<string>, a: string, b: string)
    ensures day + [a] + [b] == day + [a, b]
  {
  }

  lemma AddAssociative(x: Result<int>, y: Result<int>, z: Result<int>)
    ensures Add(Add(x, y), z) == Add(x, Add(y, z))
  {
  }

  /** Appending a start and an end to a day of complete pairs adds that pair's amount,
      and nothing at all when either marker strips to the empty string. */
  lemma {:induction false} AccountedAppendPair(day: seq<string>, a: string, b: string)
    requires |day| % 2 == 0
    ensures Accounted(day + [a, b]) == Add(Accounted(day), PairAmount(a, b))
    decreases |day|
  {
    if |day| < 2 {
      assert day + [a, b] == [a, b] && [a, b][2..] == [];
      match PairAmount(a, b) {
        case Err(_) =>
        case Ok(_) =>
      }
    } else {
      var x, rest := PairAmount(day[0], day[1]), day[2..];
      assert (day + [a, b])[2..] == rest + [a, b];
      assert Accounted(day + [a, b]) == Add(x, Accounted(rest + [a, b]));
      AccountedAppendPair(rest, a, b);
      AddAssociative(x, Accounted(rest), PairAmount(a, b));
    }
  }

  /** A pair in which either marker strips to the empty string adds nothing. */
  lemma AccountedAppendEmptyPair(day: seq<string>, a: string, b: string)
    requires |day| % 2 == 0 && (Strip(a) == "" || Strip(b) == "")
    ensures Accounted(day + [a, b]) == Accounted(day)
  {
    AccountedAppendPair(day, a, b);
    match Accounted(day) {
      case Err(_) =>
      case Ok(_) =>
    }
  }

  /** A pair placed in front of a day adds its amount to the day's total. */
  lemma AccountedPrependPair(a: string, b: string, rest: seq<string>, x: int, y: int)
    requires PairAmount(a, b) == Ok(x) && Accounted(rest) == Ok(y)
    ensures Accounted([a, b] + rest) == Ok(x + y)
  {
    assert ([a, b] + rest)[2..] == rest;
  }

  /** Every marker of the day carries a time the accountant can read. */
  predicate Timed(day: seq<string>) {
    forall i :: 0 <= i < |day| ==> ParseTime(Strip(day[i])).Some?
  }

  /** The minutes of the time a marker carries. */
  function TimeOf(m: string): int
    requires ParseTime(Strip(m)).Some?
  {
    ParseTime(Strip(m)).value
  }

  /** The intended total of a day whose markers all carry times: the sum of `end - start`
      over consecutive (start, end) positions, a trailing start not counted. */
  function Spans(day: seq<string>): int
    requires Timed(day)
    decreases |day|
  {
    if |day| < 2 then 0 else (TimeOf(day[1]) - TimeOf(day[0])) + Spans(day[2..])
  }

  /** When every marker carries a time, nothing fails and nothing is dropped: the total is
      the sum of the sessions' lengths. */
  lemma {:induction false} TimedTotal(day: seq<string>)
    requires Timed(day)
    ensures Accounted(day) == Ok(Spans(day))
    decreases |day|
  {
    if |day| >= 2 {
      assert ParseTime(Strip(day[0])).Some? && ParseTime(Strip(day[1])).Some?;
      PairAmountOfTimes(day[0], day[1], TimeOf(day[0]), TimeOf(day[1]));
      TimedTotal(day[2..]);
    }
  }

  /** A trailing unmatched marker (an open session) contributes nothing. */
  lemma {:induction false} AccountedTrailing(day: seq<string>, a: string)
    requires |day| % 2 == 0
    ensures Accounted(day + [a]) == Accounted(day)
    decreases |day|
  {
    if |day| >= 2 {
      assert (day + [a])[2..] == day[2..] + [a];
      AccountedTrailing(day[2..], a);
    }
  }

  /** The accountant never inspects the kind tags: two days whose markers agree after
      the first character is removed have the same total. */
  lemma PipelineIgnoresTags(day: seq<string>, day': seq<string>)
    requires |day| == |day'|
    requires forall i :: 0 <= i < |day| ==> Strip(day[i]) == Strip(day'[i])
    ensures Pipeline(day) == Pipeline(day')
    ensures Accounted(day) == Accounted(day')
  {
    PipelineIsAccounted(day);
    PipelineIsAccounted(day');
    var c, c' := Candidates(day), Candidates(day');
    forall i | 0 <= i < |c|
      ensures Stripped(c)[i] == Stripped(c')[i]
    {
      assert Strip(day[2 * i]) == Strip(day'[2 * i]);
      assert Strip(day[2 * i + 1]) == Strip(day'[2 * i + 1]);
    }
    assert Stripped(c) == Stripped(c');
  }
}
