/** The application object and its commands: `log` totals one day's markers, `start` and
    `end` record a marker for today, and a command name selects the handler. The time-log
    file is held as the map it contains; reading and writing the file, the wall clock and
    the commands that run external programs are not part of this model. */
module Enote {
  import opened Errors
  import opened Clock
  import opened Accounting
  import opened Recording

  /** The application, created once per invocation for today's date. `timeEvents` is the
      content of the time-log file: ISO date to that day's markers. */
  class App {
    const date: string
    var timeEvents: Log

    constructor (date: string, timeEvents: Log)
      ensures this.date == date && this.timeEvents == timeEvents
    {
      this.date := date;
      this.timeEvents := timeEvents;
    }

    /** `log [date]`: the total minutes worked on `date` (today when no argument is given).
        The pairs are built, stripped and filtered as the accountant specifies; the loop
        then sums `end - start` pair by pair and stops at the first time that does not
        parse. */
    method LogTime(args: seq<string>) returns (r: Result<int>)
      ensures var d := if |args| > 0 then args[0] else date;
              && r == DayTotal(timeEvents, d)
              && (r == Err(DateNotFound) <==> d !in timeEvents)
    {
      var d := date;
      if |args| > 0 {
        d := args[0];
      }
      if d !in timeEvents {
        return Err(DateNotFound);
      }
      var today := timeEvents[d];
      var tuples := Kept(Stripped(Candidates(today)));
      var diff := 0;
      var i := 0;
      while i < |tuples|
        invariant 0 <= i <= |tuples|
        invariant SumDiffs(tuples[..i]) == Ok(diff)
      {
        var x := tuples[i];
        assert tuples[..i + 1][..i] == tuples[..i];
        match (ParseTime(x.0), ParseTime(x.1)) {
          case (Some(s), Some(e)) =>
            diff := diff + (e - s);
          case _ =>
            SumDiffsErrPersists(tuples, i + 1);
            PipelineIsAccounted(today);
            return Err(TimeParseError);
        }
        i := i + 1;
      }
      assert tuples[..i] == tuples;
      PipelineIsAccounted(today);
      return Ok(diff);
    }

    /** Records a marker of kind `k` read at `now` for today, first appending the bare
        opposite tag when the last marker of the day does not contain it. When today's
        list exists but is empty, the lookup of its last marker fails and the log is left
        as it was. The same rule, written as a function on the log, is `Recorded`; the
        postcondition ties the two together. */
    method WriteTime(k: Kind, now: TimeOfDay, post: string) returns (r: Result<()>)
      requires Valid(now) && PlainText(post)
      modifies this
      ensures var rec := Recorded(old(timeEvents), date, k, now, post);
              && (rec.Ok? ==> r == Ok(()) && timeEvents == rec.value)
              && (rec.Err? ==> r == Err(rec.error) && timeEvents == old(timeEvents))
    {
      var pt := "S";
      if pt == Tag(k) {
        pt := "E";
      }
      assert pt == OppositeTag(k);
      var annotation := "";
      if post != "" {
        annotation := " " + post;
      }
      var timeEvent := Tag(k) + IsoMinutes(now) + annotation;
      var events := timeEvents;
      if date in events {
        var day := events[date];
        if |day| == 0 {
          return Err(EmptyDayList);
        }
        if !Contains(day[|day| - 1], pt) {
          day := day + [pt];
        }
        day := day + [timeEvent];
        events := events[date := day];
      } else {
        events := events[date := [timeEvent]];
      }
      timeEvents := events;
      return Ok(());
    }

    /** `start`: records a start marker for today. */
    method StartTime(now: TimeOfDay) returns (r: Result<()>)
      requires Valid(now)
      modifies this
      ensures var rec := Recorded(old(timeEvents), date, Kind.Start, now, "");
              && (rec.Ok? ==> r == Ok(()) && timeEvents == rec.value)
              && (rec.Err? ==> r == Err(rec.error) && timeEvents == old(timeEvents))
    {
      r := WriteTime(Kind.Start, now, "");
    }

    /** `end`: records an end marker for today. */
    method EndTime(now: TimeOfDay) returns (r: Result<()>)
      requires Valid(now)
      modifies this
      ensures var rec := Recorded(old(timeEvents), date, Kind.End, now, "");
              && (rec.Ok? ==> r == Ok(()) && timeEvents == rec.value)
              && (rec.Err? ==> r == Err(rec.error) && timeEvents == old(timeEvents))
    {
      r := WriteTime(Kind.End, now, "");
    }

    /** Runs the command named `command`: the time-log commands act on the log, the other
        known commands are handed on to the programs they run, and an unknown name gives
        the usage text. */
    method Run(command: string, args: seq<string>, now: TimeOfDay) returns (out: Outcome)
      requires Valid(now)
      modifies this
      ensures LookupCommand(command).None? ==> out == Usage && timeEvents == old(timeEvents)
      ensures LookupCommand(command) == Some(Command.Log) ==>
                out == Logged(DayTotal(timeEvents, if |args| > 0 then args[0] else date))
                && timeEvents == old(timeEvents)
      ensures LookupCommand(command) == Some(Command.Start) ==>
                var rec := Recorded(old(timeEvents), date, Kind.Start, now, "");
                && out == Wrote(if rec.Ok? then Ok(()) else Err(rec.error))
                && timeEvents == (if rec.Ok? then rec.value else old(timeEvents))
      ensures LookupCommand(command) == Some(Command.End) ==>
                var rec := Recorded(old(timeEvents), date, Kind.End, now, "");
                && out == Wrote(if rec.Ok? then Ok(()) else Err(rec.error))
                && timeEvents == (if rec.Ok? then rec.value else old(timeEvents))
      ensures LookupCommand(command).Some? && !LookupCommand(command).value.TimeLog() ==>
                out == Delegated(LookupCommand(command).value) && timeEvents == old(timeEvents)
    {
      match LookupCommand(command) {
        case None =>
          out := Usage;
        case Some(c) =>
          match c {
            case Log =>
              var total := LogTime(args);
              out := Logged(total);
            case Start =>
              var status := StartTime(now);
              out := Wrote(status);
            case End =>
              var status := EndTime(now);
              out := Wrote(status);
            case _ =>
              out := Delegated(c);
          }
      }
    }
  }

  /** The commands of the dispatch table. */
  datatype Command = Backup | Start | End | Log | Daily | Edit | Standup | Grep
  {
    /** The commands that work on the time log; the others run an editor, `grep` or `git`. */
    predicate TimeLog() {
      Start? || End? || Log?
    }
  }

  /** What running a command produced. */
  datatype Outcome =
    | Usage
    | Logged(total: Result<int>)
    | Wrote(status: Result<()>)
    | Delegated(command: Command)

  /** The name a command is invoked by. */
  function CommandName(c: Command): string {
    match c
    case Backup => "backup"
    case Start => "start"
    case End => "end"
    case Log => "log"
    case Daily => "daily"
    case Edit => "edit"
    case Standup => "standup"
    case Grep => "grep"
  }

  /** The dispatch table: the command with this name, or none (the usage text is shown). */
  function LookupCommand(name: string): (r: Option<Command>)
    ensures r.Some? ==> CommandName(r.value) == name
  {
    if name == "backup" then Some(Backup)
    else if name == "start" then Some(Command.Start)
    else if name == "end" then Some(Command.End)
    else if name == "log" then Some(Log)
    else if name == "daily" then Some(Daily)
    else if name == "edit" then Some(Edit)
    else if name == "standup" then Some(Standup)
    else if name == "grep" then Some(Grep)
    else None
  }

  /** Every command is found under its own name, so a name is unknown exactly when no
      command carries it. */
  lemma LookupCommandName(c: Command)
    ensures LookupCommand(CommandName(c)) == Some(c)
  {
  }

  /** The daily note for `date` inside the notes directory `daily`. */
  function DailyNotePath(daily: string, date: string): string {
    daily + "/" + date + ".md"
  }

  /** Within one notes directory, different dates give different note files. */
  lemma DailyNotePathInjective(daily: string, date: string, date': string)
    requires DailyNotePath(daily, date) == DailyNotePath(daily, date')
    ensures date == date'
  {
    var p, p' := DailyNotePath(daily, date), DailyNotePath(daily, date');
    var n := |daily| + 1;
    assert |date| == |date'|;
    assert p[n..n + |date|] == date;
    assert p'[n..n + |date'|] == date';
  }
}
