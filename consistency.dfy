/** How the recorder and the accountant fit together: what the tool writes is what the
    accountant reads, and a bare tag inserted by self-healing strips to the empty string,
    so the pair it lands in is filtered out. */
module Consistency {
  import opened Errors
  import opened Clock
  import opened Accounting
  import opened Recording

  /** A marker without annotation strips back to the `HH:MM` text of its time, which parses
      to that time; a bare tag strips to the empty string. */
  lemma MarkerStripsToTime(k: Kind, now: TimeOfDay)
    requires Valid(now)
    ensures Strip(Marker(k, now, "")) == IsoMinutes(now)
    ensures ParseTime(Strip(Marker(k, now, ""))) == Some(Minutes(now))
    ensures Strip(Tag(k)) == "" && Strip(OppositeTag(k)) == ""
  {
    ParseIsoMinutes(now);
  }

  /** Appending a marker `m` to a non-empty day after healing it: the total changes only
      when the day had an open session (odd length) and no bare tag was inserted, and then
      by the amount of the pair that `m` closes. Any other case leaves the total as it was:
      a bare tag strips to the empty string, so the pair it lands in is dropped, and a
      marker left unmatched at the end is not counted. */
  lemma HealedTotal(day: seq<string>, k: Kind, m: string)
    requires |day| > 0
    ensures var last := day[|day| - 1];
            Accounted(Healed(day, k) + [m]) ==
              if |day| % 2 == 1 && Contains(last, OppositeTag(k))
              then Add(Accounted(day), PairAmount(last, m))
              else Accounted(day)
  {
    if |day| % 2 == 0 {
      HealedTotalEven(day, k, m);
    } else {
      var prefix := day[..|day| - 1];
      LastSplit(day);
      ParityStep(|prefix|);
      HealedTotalOdd(prefix, day[|day| - 1], k, m);
    }
  }

  lemma HealedTotalEven(day: seq<string>, k: Kind, m: string)
    requires |day| > 0 && |day| % 2 == 0
    ensures Accounted(Healed(day, k) + [m]) == Accounted(day)
  {
    var last, pt := day[|day| - 1], OppositeTag(k);
    if !Contains(last, pt) {
      assert Strip(pt) == "";
      AppendTwo(day, pt, m);
      AccountedAppendEmptyPair(day, pt, m);
    } else {
      AccountedTrailing(day, m);
    }
  }

  lemma HealedTotalOdd(prefix: seq<string>, last: string, k: Kind, m: string)
    requires |prefix| % 2 == 0
    ensures Accounted(Healed(prefix + [last], k) + [m]) ==
              if Contains(last, OppositeTag(k))
              then Add(Accounted(prefix + [last]), PairAmount(last, m))
              else Accounted(prefix + [last])
  {
    AccountedTrailing(prefix, last);
    if Contains(last, OppositeTag(k)) {
      ClosingMarker(prefix, last, k, m);
    } else {
      HealingTag(prefix, last, k, m);
    }
  }

  /** The new marker closes the open session. */
  lemma ClosingMarker(prefix: seq<string>, last: string, k: Kind, m: string)
    requires |prefix| % 2 == 0 && Contains(last, OppositeTag(k))
    ensures Accounted(Healed(prefix + [last], k) + [m]) == Add(Accounted(prefix), PairAmount(last, m))
  {
    AppendTwo(prefix, last, m);
    AccountedAppendPair(prefix, last, m);
  }

  /** The bare tag closes the open session in a pair that is dropped, and the new marker
      is left unmatched. */
  lemma HealingTag(prefix: seq<string>, last: string, k: Kind, m: string)
    requires |prefix| % 2 == 0 && !Contains(last, OppositeTag(k))
    ensures Accounted(Healed(prefix + [last], k) + [m]) == Accounted(prefix)
  {
    var pt := OppositeTag(k);
    assert Strip(pt) == "";
    AppendTwo(prefix, last, pt);
    AccountedAppendEmptyPair(prefix, last, pt);
    ParityStep(|prefix|);
    assert |prefix + [last, pt]| % 2 == 0;
    AccountedTrailing(prefix + [last, pt], m);
  }

  /** Recording for an existing date changes that date's total only when the day had an
      open session and the new marker closes it; a repeated start or a repeated end (healed
      by the bare tag), or a start after complete pairs, leaves the total unchanged. */
  lemma RecordedTotal(log: Log, date: string, k: Kind, now: TimeOfDay, post: string)
    requires Valid(now) && PlainText(post) && date in log && log[date] != []
    ensures var day := log[date];
            var last, m := day[|day| - 1], Marker(k, now, post);
            var r := Recorded(log, date, k, now, post);
            && r.Ok?
            && DayTotal(r.value, date) ==
                 if |day| % 2 == 1 && Contains(last, OppositeTag(k))
                 then Add(DayTotal(log, date), PairAmount(last, m))
                 else DayTotal(log, date)
  {
    var day, m := log[date], Marker(k, now, post);
    RecordedDayTotal(log, date, k, now, post);
    HealedTotal(day, k, m);
  }

  /** For a date holding markers, the recorded day's total is that of the healed day with
      the new marker appended. */
  lemma RecordedDayTotal(log: Log, date: string, k: Kind, now: TimeOfDay, post: string)
    requires Valid(now) && PlainText(post) && date in log && log[date] != []
    ensures var r := Recorded(log, date, k, now, post);
            && r.Ok?
            && DayTotal(r.value, date) == Accounted(Healed(log[date], k) + [Marker(k, now, post)])
  {
    var healed := Healed(log[date], k) + [Marker(k, now, post)];
    assert Recorded(log, date, k, now, post) == Ok(log[date := healed]);
  }

  /** Recording an end without annotation after a start recorded at `t` without annotation
      that leaves a session open (the day has odd length) closes that session: the day's
      total grows by `now - t`, negative when `now` is earlier. When the start sits at an
      odd position instead, as in a day begun by `end` (see DayBegunByEnd), the end is left
      unmatched and the total does not change. */
  lemma EndClosesSession(log: Log, date: string, t: TimeOfDay, now: TimeOfDay)
    requires Valid(t) && Valid(now) && date in log && |log[date]| % 2 == 1
    requires log[date][|log[date]| - 1] == Marker(Start, t, "")
    ensures var r := Recorded(log, date, End, now, "");
            r.Ok? && DayTotal(r.value, date) == Add(DayTotal(log, date), Ok(Minutes(now) - Minutes(t)))
  {
    StartMarkerIsOpen(t);
    SessionAmount(t, now);
    RecordedTotal(log, date, End, now, "");
  }

  /** A start marker holds the tag an end looks for, so an end after it inserts nothing. */
  lemma StartMarkerIsOpen(t: TimeOfDay)
    requires Valid(t)
    ensures Contains(Marker(Start, t, ""), OppositeTag(End))
  {
    MarkerLayout(Start, t, "");
    assert OppositeTag(End) == "S";
  }

  /** A start marker at `t` and an end marker at `now` form a pair worth `now - t`. */
  lemma SessionAmount(t: TimeOfDay, now: TimeOfDay)
    requires Valid(t) && Valid(now)
    ensures PairAmount(Marker(Start, t, ""), Marker(End, now, "")) == Ok(Minutes(now) - Minutes(t))
  {
    MarkerStripsToTime(Start, t);
    MarkerStripsToTime(End, now);
    WrittenPairAmount(Marker(Start, t, ""), Marker(End, now, ""), t, now);
  }

  /** Two markers that strip to the text written for `t` and `now` form a pair worth `now - t`. */
  lemma WrittenPairAmount(a: string, b: string, t: TimeOfDay, now: TimeOfDay)
    requires Valid(t) && Valid(now) && Strip(a) == IsoMinutes(t) && Strip(b) == IsoMinutes(now)
    ensures PairAmount(a, b) == Ok(Minutes(now) - Minutes(t))
  {
    ParseIsoMinutes(t);
    ParseIsoMinutes(now);
    PairAmountOfTimes(a, b, Minutes(t), Minutes(now));
  }

  /** A marker written without annotation never contains the tag the next marker of the
      same kind looks for: its characters are its own tag, digits and the colon. */
  lemma MarkerLacksOppositeTag(k: Kind, t: TimeOfDay)
    requires Valid(t)
    ensures !Contains(Marker(k, t, ""), OppositeTag(k))
  {
    var m, pt := Marker(k, t, ""), OppositeTag(k);
    MarkerLayout(k, t, "");
    IsoMinutesChars(t);
    assert pt == [pt[0]];
    ContainsOneChar(m, pt[0]);
    forall i | 0 <= i < |m|
      ensures m[i] != pt[0]
    {
      if i == 0 {
        assert m[0] == m[..1][0];
      } else {
        assert m[i] == m[1..6][i - 1];
      }
    }
  }

  /** A second start after a start (or a second end after an end), both without annotation,
      gets the bare opposite tag inserted before it: the day's list grows by that tag and
      the new marker. */
  lemma RepeatedMarkerHealed(log: Log, date: string, k: Kind, t: TimeOfDay, now: TimeOfDay)
    requires Valid(t) && Valid(now) && date in log && log[date] != []
    requires log[date][|log[date]| - 1] == Marker(k, t, "")
    ensures var r := Recorded(log, date, k, now, "");
            r.Ok? && r.value[date] == log[date] + [OppositeTag(k), Marker(k, now, "")]
  {
    MarkerLacksOppositeTag(k, t);
    var day := log[date];
    assert Healed(day, k) == day + [OppositeTag(k)];
    assert Recorded(log, date, k, now, "") == Ok(log[date := Healed(day, k) + [Marker(k, now, "")]]);
  }

  /** A repeated start (or a repeated end) without annotation adds nothing to the day's
      total: the inserted bare tag closes the open session in a pair that is dropped. */
  lemma RepeatedMarkerAddsNothing(log: Log, date: string, k: Kind, t: TimeOfDay, now: TimeOfDay)
    requires Valid(t) && Valid(now) && date in log && log[date] != []
    requires log[date][|log[date]| - 1] == Marker(k, t, "")
    ensures var r := Recorded(log, date, k, now, "");
            r.Ok? && DayTotal(r.value, date) == DayTotal(log, date)
  {
    MarkerLacksOppositeTag(k, t);
    RecordedTotal(log, date, k, now, "");
  }

  /** A date not yet in the log totals zero after its first marker is recorded. */
  lemma FirstMarkerTotalsZero(log: Log, date: string, k: Kind, now: TimeOfDay, post: string)
    requires Valid(now) && PlainText(post) && date !in log
    ensures var r := Recorded(log, date, k, now, post);
            r.Ok? && DayTotal(r.value, date) == Ok(0)
  {
    AccountedTrailing([], Marker(k, now, post));
  }

  /** Recording never changes the total of any other date. */
  lemma RecordedOtherDates(log: Log, date: string, k: Kind, now: TimeOfDay, post: string, other: string)
    requires Valid(now) && PlainText(post) && other != date
    ensures var r := Recorded(log, date, k, now, post);
            r.Ok? ==> DayTotal(r.value, other) == DayTotal(log, other)
  {
  }

  // ---------------------------------------------------------------------------------
  // Worked examples

  /** Two sessions, 08:00-12:00 and 13:00-17:00, total 480 minutes (8 hours). */
  lemma EightHourDay()
    ensures Accounted(["S08:00", "E12:00", "S13:00", "E17:00"]) == Ok(480)
  {
    var afternoon := ["S13:00", "E17:00"];
    assert Strip("S08:00") == "08:00" && Strip("E12:00") == "12:00";
    assert Strip("S13:00") == "13:00" && Strip("E17:00") == "17:00";
    AccountedPrependPair("S13:00", "E17:00", [], 240, 0);
    assert afternoon + [] == afternoon;
    AccountedPrependPair("S08:00", "E12:00", afternoon, 240, 240);
    assert ["S08:00", "E12:00"] + afternoon == ["S08:00", "E12:00", "S13:00", "E17:00"];
  }

  /** With the afternoon session still open, only the morning's 240 minutes count. */
  lemma OpenAfternoon()
    ensures Accounted(["S08:00", "E12:00", "S13:00"]) == Ok(240)
  {
    assert Strip("S08:00") == "08:00" && Strip("E12:00") == "12:00";
    AccountedPrependPair("S08:00", "E12:00", ["S13:00"], 240, 0);
    assert ["S08:00", "E12:00"] + ["S13:00"] == ["S08:00", "E12:00", "S13:00"];
  }

  /** A session that ends before it starts is summed as it is, without clamping. */
  lemma EndBeforeStart()
    ensures Accounted(["S17:00", "E08:00"]) == Ok(-540)
  {
    assert Strip("S17:00") == "17:00" && Strip("E08:00") == "08:00";
    AccountedPrependPair("S17:00", "E08:00", [], -540, 0);
    assert ["S17:00", "E08:00"] + [] == ["S17:00", "E08:00"];
  }

  /** A day begun by `end`: the tool does not heal a first marker, so the later start sits
      at an odd position and pairs backwards with that end; the closing end at 12:00 is
      left unmatched and the total is 60 (07:00 to 08:00), not the 240 of the session. */
  lemma DayBegunByEnd()
    ensures Accounted(["E07:00", "S08:00", "E12:00"]) == Ok(60)
  {
    assert Strip("E07:00") == "07:00" && Strip("S08:00") == "08:00";
    AccountedPrependPair("E07:00", "S08:00", ["E12:00"], 60, 0);
    assert ["E07:00", "S08:00"] + ["E12:00"] == ["E07:00", "S08:00", "E12:00"];
  }

  /** A second start without an end in between: the bare "E" inserted by self-healing
      closes the first start in a pair that is dropped, so nothing is counted. */
  lemma RepeatedStart()
    ensures Accounted(["S08:00", "E", "S09:00"]) == Ok(0)
  {
    var day := ["S08:00", "E", "S09:00"];
    assert Strip(day[1]) == "";
    assert day[2..] == ["S09:00"];
  }

  /** Recording a start at 09:00 on a day holding only a start at 08:00 gives exactly the
      day of RepeatedStart, whose total is zero. */
  lemma RepeatedStartRecorded(log: Log, date: string)
    requires date in log && log[date] == ["S08:00"]
    ensures var r := Recorded(log, date, Start, TimeOfDay(9, 0), "");
            && r.Ok?
            && r.value[date] == ["S08:00", "E", "S09:00"]
            && DayTotal(r.value, date) == Ok(0)
  {
    assert Marker(Start, TimeOfDay(8, 0), "") == "S08:00";
    assert Marker(Start, TimeOfDay(9, 0), "") == "S09:00";
    RepeatedMarkerHealed(log, date, Start, TimeOfDay(8, 0), TimeOfDay(9, 0));
    assert ["S08:00"] + ["E", "S09:00"] == ["S08:00", "E", "S09:00"];
    RepeatedStart();
  }
}
