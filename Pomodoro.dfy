/** The productivity page's Pomodoro timer: a running flag, the seconds
    left and the session type, changed by the once-a-second tick, the
    completion of a session, the start/pause button, the reset button and
    the Focus/Break selectors; and the mm:ss rendering of the seconds left. */
module Pomodoro {
  import opened Common

  datatype SessionType = Focus | Break

  const FocusSeconds: nat := 25 * 60
  const BreakSeconds: nat := 5 * 60

  /** The full length of a session of the given type. */
  function FullDuration(t: SessionType): nat
  {
    match t
    case Focus => FocusSeconds
    case Break => BreakSeconds
  }

  function Other(t: SessionType): SessionType
  {
    match t
    case Focus => Break
    case Break => Focus
  }

  /** The row inserted into `productivity_sessions` when a focus session completes. */
  datatype SessionRecord = SessionRecord(
    userId: string,
    sessionKind: string,
    durationMinutes: nat,
    taskDescription: string,
    completed: bool)

  /** The record for a completed focus session: `taskDescription || "Focus session"`. */
  function FocusRecord(userId: string, task: string): (r: SessionRecord)
    ensures r.durationMinutes == 25 && r.completed && r.userId == userId
    ensures r.taskDescription == (if task == "" then "Focus session" else task)
  {
    SessionRecord(userId, "pomodoro", 25, if task == "" then "Focus session" else task, true)
  }

  class Timer {
    var isRunning: bool
    var timeLeft: int
    var sessionType: SessionType
    var taskDescription: string
    /** The signed-in user, `null` until the session is loaded. */
    var user: Option<string>
    /** The rows inserted into `productivity_sessions`, in order. */
    var records: seq<SessionRecord>
    /** Completions, as the page is written, whose insert has been sent and
        not yet settled. */
    var awaiting: nat

    /** The seconds left never go negative nor beyond the current session's length. */
    ghost predicate Valid()
      reads this
    {
      0 <= timeLeft <= FullDuration(sessionType)
    }

    constructor ()
      ensures Valid()
      ensures !isRunning && timeLeft == 1500 && sessionType == Focus
      ensures taskDescription == "" && user == None && records == [] && awaiting == 0
    {
      isRunning, timeLeft, sessionType := false, FocusSeconds, Focus;
      taskDescription, user, records, awaiting := "", None, [], 0;
    }

    method SignIn(userId: string)
      requires Valid()
      modifies this`user
      ensures Valid()
      ensures user == Some(userId)
    {
      user := Some(userId);
    }

    /** The task field's `onChange`. */
    method SetTaskDescription(text: string)
      requires Valid()
      modifies this`taskDescription
      ensures Valid()
      ensures taskDescription == text
    {
      taskDescription := text;
    }

    /** `handleSessionComplete`: the timer stops, a focus session by a
        signed-in user is recorded as a 25-minute session, and the other
        session type starts with its full length. */
    method SessionComplete()
      requires Valid()
      modifies this`isRunning, this`sessionType, this`timeLeft, this`records
      ensures Valid()
      ensures !isRunning
      ensures sessionType == Other(old(sessionType))
      ensures timeLeft == (if old(sessionType) == Focus then 300 else 1500)
      ensures records == old(records) +
        (if old(sessionType) == Focus && user.Some? then [FocusRecord(user.value, taskDescription)] else [])
    {
      isRunning := false;
      if user.Some? && sessionType == Focus {
        records := records + [FocusRecord(user.value, taskDescription)];
      }
      var completed := sessionType;
      sessionType := if completed == Focus then Break else Focus;
      timeLeft := if completed == Focus then BreakSeconds else FocusSeconds;
    }

    /** One step of the effect on `[isRunning, timeLeft]`: while running
        with time left, the interval takes one second off; at zero the
        session completes; otherwise nothing changes. */
    method Tick()
      requires Valid()
      modifies this
      ensures Valid()
      ensures old(isRunning) && old(timeLeft) > 0 ==>
        && timeLeft == old(timeLeft) - 1 && isRunning
        && sessionType == old(sessionType) && records == old(records)
      ensures !old(isRunning) && old(timeLeft) > 0 ==> unchanged(this)
      ensures old(timeLeft) == 0 ==>
        && !isRunning && sessionType == Other(old(sessionType))
        && timeLeft == FullDuration(sessionType)
        && records == old(records) +
             (if old(sessionType) == Focus && user.Some? then [FocusRecord(user.value, taskDescription)] else [])
      ensures taskDescription == old(taskDescription) && user == old(user) && awaiting == old(awaiting)
      ensures |records| <= |old(records)| + 1
      ensures |records| > |old(records)| ==> !isRunning && sessionType == Break && timeLeft == 300
    {
      if isRunning && timeLeft > 0 {
        timeLeft := timeLeft - 1;
      } else if timeLeft == 0 {
        SessionComplete();
      }
    }

    /** `handleSessionComplete` as the page runs it: the timer stops, and a
        signed-in user's focus session sends its insert and waits for it
        before the type flips; the stop alone is rendered meanwhile.
        Without the insert the whole completion happens at once. */
    method SessionCompleteAsWritten()
      requires Valid()
      modifies this`isRunning, this`sessionType, this`timeLeft, this`records, this`awaiting
      ensures Valid() && !isRunning
      ensures user.Some? && old(sessionType) == Focus ==>
        && records == old(records) + [FocusRecord(user.value, taskDescription)]
        && awaiting == old(awaiting) + 1
        && sessionType == old(sessionType) && timeLeft == old(timeLeft)
      ensures !(user.Some? && old(sessionType) == Focus) ==>
        && records == old(records) && awaiting == old(awaiting)
        && sessionType == Other(old(sessionType))
        && timeLeft == (if old(sessionType) == Focus then 300 else 1500)
    {
      isRunning := false;
      if user.Some? && sessionType == Focus {
        records := records + [FocusRecord(user.value, taskDescription)];
        awaiting := awaiting + 1;
      } else {
        var completed := sessionType;
        sessionType := if completed == Focus then Break else Focus;
        timeLeft := if completed == Focus then BreakSeconds else FocusSeconds;
      }
    }

    /** An awaited insert settles: the rest of that `handleSessionComplete`
        runs with the session type that call saw, which was focus. */
    method InsertSettled()
      requires awaiting > 0
      modifies this`sessionType, this`timeLeft, this`awaiting
      ensures Valid()
      ensures sessionType == Break && timeLeft == 300 && awaiting == old(awaiting) - 1
    {
      sessionType := Break;
      timeLeft := BreakSeconds;
      awaiting := awaiting - 1;
    }

    /** One run of the effect on `[isRunning, timeLeft]` as the page is
        written, completing through `SessionCompleteAsWritten`. */
    method TickAsWritten()
      requires Valid()
      modifies this
      ensures Valid()
      ensures old(isRunning) && old(timeLeft) > 0 ==>
        timeLeft == old(timeLeft) - 1 && isRunning && sessionType == old(sessionType)
        && records == old(records) && awaiting == old(awaiting)
      ensures !old(isRunning) && old(timeLeft) > 0 ==> unchanged(this)
      ensures old(timeLeft) == 0 && user.Some? && old(sessionType) == Focus ==>
        && !isRunning && timeLeft == 0 && sessionType == Focus
        && records == old(records) + [FocusRecord(user.value, taskDescription)]
        && awaiting == old(awaiting) + 1
      ensures old(timeLeft) == 0 && !(user.Some? && old(sessionType) == Focus) ==>
        && !isRunning && sessionType == Other(old(sessionType))
        && timeLeft == FullDuration(sessionType)
        && records == old(records) && awaiting == old(awaiting)
      ensures taskDescription == old(taskDescription) && user == old(user)
    {
      if isRunning && timeLeft > 0 {
        timeLeft := timeLeft - 1;
      } else if timeLeft == 0 {
        SessionCompleteAsWritten();
      }
    }

    /** `toggleTimer`: start or pause; the time and the session type stay. */
    method Toggle()
      requires Valid()
      modifies this`isRunning
      ensures Valid()
      ensures isRunning == !old(isRunning)
    {
      isRunning := !isRunning;
    }

    /** `resetTimer`: stop and restore the full length of the current type. */
    method Reset()
      modifies this`isRunning, this`timeLeft
      ensures Valid()
      ensures !isRunning && timeLeft == FullDuration(sessionType)
    {
      isRunning := false;
      timeLeft := if sessionType == Focus then FocusSeconds else BreakSeconds;
    }

    /** The "Focus (25min)" button. */
    method SelectFocus()
      modifies this`isRunning, this`timeLeft, this`sessionType
      ensures Valid()
      ensures !isRunning && sessionType == Focus && timeLeft == 1500
    {
      sessionType := Focus;
      timeLeft := FocusSeconds;
      isRunning := false;
    }

    /** The "Break (5min)" button. */
    method SelectBreak()
      modifies this`isRunning, this`timeLeft, this`sessionType
      ensures Valid()
      ensures !isRunning && sessionType == Break && timeLeft == 300
    {
      sessionType := Break;
      timeLeft := BreakSeconds;
      isRunning := false;
    }
  }

  // ---------------------------------------------------------------------
  // One focus session, run down to zero by a signed-in user
  //
  // React runs the effect on `[isRunning, timeLeft]` after every render in
  // which either changed: after the start, after each second taken off, and
  // after the stop that `handleSessionComplete` renders before its insert
  // settles.

  /** As the page is written: the stop re-runs the effect while the time is
      still 0 and the type still focus, so the session completes twice and
      two rows are inserted; the type and time end as after one completion. */
  method DoubleInsertAsWritten(userId: string) returns (records: seq<SessionRecord>, finalType: SessionType, finalTime: int)
    ensures |records| == 2 && records[0] == records[1] == FocusRecord(userId, "")
    ensures finalType == Break && finalTime == 300
  {
    var t := new Timer();
    t.SignIn(userId);
    t.Toggle();
    while t.timeLeft > 0
      invariant t.Valid() && t.isRunning && t.sessionType == Focus
      invariant t.records == [] && t.awaiting == 0
      invariant t.user == Some(userId) && t.taskDescription == ""
      decreases t.timeLeft
    {
      t.TickAsWritten();
    }
    t.TickAsWritten();  // the effect at 0: the completion sends the insert
    t.TickAsWritten();  // the rendered stop re-runs the effect, still at 0
    t.InsertSettled();
    t.InsertSettled();
    records, finalType, finalTime := t.records, t.sessionType, t.timeLeft;
  }

  /** With completion as one step, the same run inserts one row: the effect
      that the completion's render triggers finds 300 s left and a stopped
      timer, and changes nothing. */
  method SingleInsert(userId: string) returns (records: seq<SessionRecord>, finalType: SessionType, finalTime: int)
    ensures records == [FocusRecord(userId, "")]
    ensures finalType == Break && finalTime == 300
  {
    var t := new Timer();
    t.SignIn(userId);
    t.Toggle();
    while t.timeLeft > 0
      invariant t.Valid() && t.isRunning && t.sessionType == Focus
      invariant t.records == [] && t.user == Some(userId) && t.taskDescription == ""
      decreases t.timeLeft
    {
      t.Tick();
    }
    t.Tick();  // the effect at 0: the session completes
    t.Tick();  // the rendered completion re-runs the effect
    records, finalType, finalTime := t.records, t.sessionType, t.timeLeft;
  }

  // ---------------------------------------------------------------------
  // formatTime

  function Digit(d: int): char
    requires 0 <= d < 10
  {
    ('0' as int + d) as char
  }

  predicate IsDigit(c: char)
  {
    '0' <= c <= '9'
  }

  ghost predicate AllDigits(s: string)
  {
    forall i :: 0 <= i < |s| ==> IsDigit(s[i])
  }

  /** The decimal digits of a natural number, as `toString` writes them. */
  function Decimal(n: nat): string
  {
    if n < 10 then [Digit(n)] else Decimal(n / 10) + [Digit(n % 10)]
  }

  /** `n.toString()` for an integer. */
  function IntToString(n: int): string
  {
    if n < 0 then "-" + Decimal(-n) else Decimal(n)
  }

  /** `s.padStart(2, "0")`. */
  function PadStart2(s: string): string
  {
    if |s| == 0 then "00" else if |s| == 1 then "0" + s else s
  }

  /** `formatTime(seconds)`: minutes and seconds, each padded to two digits. */
  function FormatTime(seconds: int): string
  {
    var mins := FloorDiv(seconds, 60);
    var secs := JsRemainder(seconds, 60);
    PadStart2(IntToString(mins)) + ":" + PadStart2(IntToString(secs))
  }

  // ---------------------------------------------------------------------
  // Reading mm:ss back

  /** The value of a string of decimal digits. */
  function DecimalValue(s: string): nat
  {
    if |s| == 0 then 0
    else
      var c := s[|s| - 1];
      DecimalValue(s[..|s| - 1]) * 10 + (if IsDigit(c) then c as int - '0' as int else 0)
  }

  /** Position of the first ':' in s, if any. */
  function ColonAt(s: string): (k: Option<nat>)
    ensures k.Some? ==> k.value < |s| && s[k.value] == ':'
    ensures k.Some? ==> forall i :: 0 <= i < k.value ==> s[i] != ':'
    ensures k.None? ==> forall i :: 0 <= i < |s| ==> s[i] != ':'
  {
    if |s| == 0 then None
    else if s[0] == ':' then Some(0)
    else match ColonAt(s[1..])
      case Some(k) => Some(k + 1)
      case None => None
  }

  /** Reads "mm:ss" (any number of digits on each side) back into seconds. */
  function ParseTime(t: string): Option<int>
  {
    match ColonAt(t)
    case None => None
    case Some(k) => ParseParts(t[..k], t[k + 1..])
  }

  /** The value of minutes `m` and seconds `s`, when both are non-empty digit strings. */
  function ParseParts(m: string, s: string): Option<int>
  {
    if |m| > 0 && |s| > 0 && (forall i :: 0 <= i < |m| ==> IsDigit(m[i]))
                              && (forall i :: 0 <= i < |s| ==> IsDigit(s[i]))
    then Some(DecimalValue(m) * 60 + DecimalValue(s))
    else None
  }

  lemma {:induction false} DecimalDigits(n: nat)
    ensures |Decimal(n)| >= 1 && AllDigits(Decimal(n))
    ensures DecimalValue(Decimal(n)) == n
    ensures n < 10 ==> |Decimal(n)| == 1
    ensures 10 <= n < 100 ==> |Decimal(n)| == 2
  {
    var d := Decimal(n);
    if n >= 10 {
      DecimalDigits(n / 10);
      var init := Decimal(n / 10);
      assert d[..|d| - 1] == init;
      assert d[|d| - 1] == Digit(n % 10);
      forall i | 0 <= i < |d| ensures IsDigit(d[i]) {
        if i < |init| { assert d[i] == init[i]; }
      }
    }
  }

  lemma {:induction false} LeadingZero(x: string)
    ensures DecimalValue("0" + x) == DecimalValue(x)
  {
    if |x| > 0 {
      var s := "0" + x;
      assert s[..|s| - 1] == "0" + x[..|x| - 1];
      assert s[|s| - 1] == x[|x| - 1];
      LeadingZero(x[..|x| - 1]);
    } else {
      assert ("0" + x)[..0] == "";
    }
  }

  /** A padded decimal is a non-empty digit string with the same value. */
  lemma PaddedDecimal(n: nat)
    ensures |PadStart2(Decimal(n))| >= 2 && AllDigits(PadStart2(Decimal(n)))
    ensures DecimalValue(PadStart2(Decimal(n))) == n
    ensures n < 100 ==> |PadStart2(Decimal(n))| == 2
  {
    DecimalDigits(n);
    var d := Decimal(n);
    if |d| == 1 {
      LeadingZero(d);
      var p := "0" + d;
      assert p[0] == '0' && p[1] == d[0];
    }
  }

  /** For a non-negative count of seconds the rendering is two padded
      decimals around the only ':', and reading it back gives the count. */
  lemma FormatTimeRoundTrip(seconds: int)
    requires seconds >= 0
    ensures ParseTime(FormatTime(seconds)) == Some(seconds)
  {
    var mins, secs := seconds / 60, seconds % 60;
    FormatNonNegative(seconds);
    PaddedDecimal(mins);
    PaddedDecimal(secs);
    ParseJoined(PadStart2(Decimal(mins)), PadStart2(Decimal(secs)));
  }

  /** For a non-negative count the rendering has no sign: the padded digits
      of the quotient and remainder by 60. */
  lemma FormatNonNegative(seconds: int)
    requires seconds >= 0
    ensures FormatTime(seconds) == PadStart2(Decimal(seconds / 60)) + ":" + PadStart2(Decimal(seconds % 60))
  {
    assert FloorDiv(seconds, 60) == seconds / 60 && JsRemainder(seconds, 60) == seconds % 60;
  }

  /** Two non-empty digit strings joined by ':' parse back to their values. */
  lemma ParseJoined(m: string, s: string)
    requires |m| > 0 && |s| > 0 && AllDigits(m) && AllDigits(s)
    ensures ParseTime(m + ":" + s) == Some(DecimalValue(m) * 60 + DecimalValue(s))
  {
    var t := m + ":" + s;
    ColonAfterDigits(m, ":" + s);
    assert t == m + (":" + s);
    PartsOfJoin(m, s);
    ParseAt(t, m, s);
  }

  lemma ParseAt(t: string, m: string, s: string)
    requires |m| > 0 && |s| > 0 && AllDigits(m) && AllDigits(s)
    requires ColonAt(t) == Some(|m|) && t[..|m|] == m && t[|m| + 1..] == s
    ensures ParseTime(t) == Some(DecimalValue(m) * 60 + DecimalValue(s))
  {
  }

  lemma PartsOfJoin(m: string, s: string)
    ensures (m + ":" + s)[..|m|] == m && (m + ":" + s)[|m| + 1..] == s
  {
  }

  /** The first ':' after a run of digits is the one that ends it. */
  lemma {:induction false} ColonAfterDigits(m: string, r: string)
    requires AllDigits(m) && |r| > 0 && r[0] == ':'
    ensures ColonAt(m + r) == Some(|m|)
  {
    if |m| == 0 {
      assert m + r == r;
    } else {
      assert (m + r)[0] == m[0] && IsDigit(m[0]);
      assert (m + r)[1..] == m[1..] + r;
      ColonAfterDigits(m[1..], r);
    }
  }

  /** For a count of seconds below 6000 (99:59), in particular any timer
      value up to 1500, the rendering is exactly five characters, "mm:ss",
      with seconds below 60. */
  lemma FormatTimeShape(seconds: int)
    requires 0 <= seconds < 6000
    ensures |FormatTime(seconds)| == 5 && FormatTime(seconds)[2] == ':'
    ensures forall i :: 0 <= i < 5 && i != 2 ==> IsDigit(FormatTime(seconds)[i])
    ensures DecimalValue(FormatTime(seconds)[3..]) == seconds % 60 < 60
    ensures DecimalValue(FormatTime(seconds)[..2]) * 60 + seconds % 60 == seconds
  {
    var mins, secs := seconds / 60, seconds % 60;
    assert FloorDiv(seconds, 60) == mins && JsRemainder(seconds, 60) == secs;
    var m, s := PadStart2(Decimal(mins)), PadStart2(Decimal(secs));
    PaddedDecimal(mins);
    PaddedDecimal(secs);
    var t := FormatTime(seconds);
    assert t == m + ":" + s;
    assert t[..2] == m && t[3..] == s;
    forall i | 0 <= i < 5 && i != 2 ensures IsDigit(t[i]) {
      if i < 2 { assert t[i] == m[i]; } else { assert t[i] == s[i - 3]; }
    }
  }

  /** Negative inputs, which the timer never produces, render with JavaScript's
      signs: -1 second is Math.floor(-1/60) = -1 minutes and -1 % 60 = -1. */
  lemma FormatTimeMinusOne()
    ensures FormatTime(-1) == "-1:-1"
  {
    assert FloorDiv(-1, 60) == -1;
    assert JsRemainder(-1, 60) == -1;
    assert Decimal(1) == "1";
  }
}
