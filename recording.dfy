/** Recording a start or end marker for today, with the self-healing insertion of a bare
    opposite tag when the day's last marker does not contain it. */
module Recording {
  import opened Errors
  import opened Clock

  /** Which command records the marker: `start` writes tag S, `end` writes tag E. */
  datatype Kind = Start | End

  function Tag(k: Kind): string {
    match k
    case Start => "S"
    case End => "E"
  }

  /** The tag expected before a marker of kind `k`: E before a start, S before an end. */
  function OppositeTag(k: Kind): (pt: string)
    ensures |pt| == 1 && pt != Tag(k)
    ensures k == Start ==> pt == "E"
    ensures k == End ==> pt == "S"
  {
    if Tag(k) == "S" then "E" else "S"
  }

  /** The substring test: `sub` occurs somewhere in `s` as a contiguous run. */
  predicate Contains(s: string, sub: string)
    decreases |s|
  {
    |sub| <= |s| && (s[..|sub|] == sub || (|s| > 0 && Contains(s[1..], sub)))
  }

  /** For a one-character `sub`, the substring test is membership of that character. */
  lemma {:induction false} ContainsOneChar(s: string, c: char)
    ensures Contains(s, [c]) <==> c in s
    decreases |s|
  {
    if |s| > 0 {
      ContainsOneChar(s[1..], c);
      assert s == [s[0]] + s[1..];
    }
  }

  /** A `post` text is kept verbatim only when it holds no brace, which the formatting
      template would otherwise interpret. */
  predicate PlainText(post: string) {
    '{' !in post && '}' !in post
  }

  /** The marker written: the tag, the time as `HH:MM`, and `" " + post` when `post` is non-empty. */
  function Marker(k: Kind, now: TimeOfDay, post: string): string
    requires Valid(now) && PlainText(post)
  {
    Tag(k) + IsoMinutes(now) + (if post != "" then " " + post else "")
  }

  /** A marker is six characters, tag then `HH:MM`, followed by a space and `post` exactly
      when `post` is non-empty. */
  lemma MarkerLayout(k: Kind, now: TimeOfDay, post: string)
    requires Valid(now) && PlainText(post)
    ensures var m := Marker(k, now, post);
            && |m| >= 6 && m[..1] == Tag(k) && m[1..6] == IsoMinutes(now)
            && (post == "" <==> |m| == 6)
            && (post != "" ==> m[6..] == " " + post)
  {
  }

  /** The day list after recording, when the day already has markers: the bare opposite
      tag is appended first when the last marker does not contain it. */
  function Healed(day: seq<string>, k: Kind): (r: seq<string>)
    requires |day| > 0
  {
    if !Contains(day[|day| - 1], OppositeTag(k)) then day + [OppositeTag(k)] else day
  }

  /** The log after recording a marker of kind `k` at `now` for `date`. Fails, leaving
      nothing written, when the date's list exists but is empty. */
  function Recorded(log: map<string, seq<string>>, date: string, k: Kind, now: TimeOfDay, post: string)
    : (r: Result<map<string, seq<string>>>)
    requires Valid(now) && PlainText(post)
    ensures r.Err? <==> date in log && log[date] == []
    ensures r.Err? ==> r.error == EmptyDayList
    ensures r.Ok? ==> r.value.Keys == log.Keys + {date}
    ensures r.Ok? ==> forall d :: d in log && d != date ==> r.value[d] == log[d]
  {
    var m := Marker(k, now, post);
    if date in log then
      if |log[date]| == 0 then Err(EmptyDayList)
      else Ok(log[date := Healed(log[date], k) + [m]])
    else
      Ok(log[date := [m]])
  }

  /** A date not yet in the log gets exactly the one new marker. */
  lemma RecordedNewDate(log: map<string, seq<string>>, date: string, k: Kind, now: TimeOfDay, post: string)
    requires Valid(now) && PlainText(post) && date !in log
    ensures Recorded(log, date, k, now, post) == Ok(log[date := [Marker(k, now, post)]])
  {
  }

  /** For a date already holding markers, the old list stays a prefix and either one
      element (the marker) or two (the bare opposite tag, then the marker) are appended;
      two exactly when the last marker does not contain the opposite tag character. */
  lemma RecordedExtends(log: map<string, seq<string>>, date: string, k: Kind, now: TimeOfDay, post: string)
    requires Valid(now) && PlainText(post) && date in log && log[date] != []
    ensures Recorded(log, date, k, now, post).Ok?
    ensures var day, day' := log[date], Recorded(log, date, k, now, post).value[date];
            var m, pt := Marker(k, now, post), OppositeTag(k);
            && day'[..|day|] == day
            && (pt[0] !in day[|day| - 1] ==> day'[|day|..] == [pt, m])
            && (pt[0] in day[|day| - 1] ==> day'[|day|..] == [m])
  {
    var day := log[date];
    var pt := OppositeTag(k);
    assert pt == [pt[0]];
    ContainsOneChar(day[|day| - 1], pt[0]);
  }
}
