/** The mission countdown: an integer number of seconds, a running flag
    (the interval exists exactly while the timer is active), the red
    "danger" styling, the text shown, and a count of expiry callbacks. */
module Timer {
  import opened Edges
  import opened Text

  /** What the display element holds: nothing yet, the no-limit notice, or
      a count rendered by `Display`. */
  datatype Shown = Blank | Unlimited | Clock(seconds: int)

  datatype Timer = Timer(remaining: int, active: bool, danger: bool, shown: Shown, expirations: nat)

  const NoTimeLimit: string := "NO TIME LIMIT"

  /** The seconds at or below which the display turns red. */
  const DangerThreshold: int := 30

  /** As built by the constructor, before any level starts it. */
  function Initial(): (t: Timer)
    ensures !t.active && t.remaining == 0 && t.expirations == 0
  {
    Timer(0, false, false, Blank, 0)
  }

  /** The JavaScript `%` operator, which truncates toward zero, so the
      remainder takes the sign of the dividend. */
  function JsRem(x: int, d: int): (r: int)
    requires d > 0
    ensures x >= 0 ==> 0 <= r < d && x == d * (x / d) + r
    ensures x < 0 ==> -d < r <= 0 && x == -(d * ((-x) / d)) + r
  {
    if x >= 0 then x % d else -((-x) % d)
  }

  /** `updateDisplay`: the minutes are `Math.floor(remaining / 60)` (Dafny's
      division by a positive number already rounds down), the seconds the
      truncating remainder; each is padded to two characters with zeros. */
  function Display(remaining: int): (r: string)
    ensures |r| >= 5 && ':' in r
    ensures remaining >= 0 ==> r[|r| - 3] == ':'
    ensures remaining < 0 ==> r[0] == '-'
  {
    var m, sec := remaining / 60, JsRem(remaining, 60);
    assert remaining < 0 ==> m < 0;
    assert remaining >= 0 ==> 0 <= sec < 60;
    var mm, ss := Field(m), Field(sec);
    assert (mm + ":" + ss)[|mm|] == ':';
    mm + ":" + ss
  }

  /** `n.toString().padStart(2, '0')`: at least two characters, exactly two
      for a count below 100, and a leading minus sign for a negative one. */
  function Field(n: int): (f: string)
    ensures |f| >= 2
    ensures 0 <= n < 100 ==> |f| == 2
    ensures n < 0 ==> f[0] == '-'
  {
    var s := IntToString(n);
    var f := PadStart(s, 2, '0');
    if 0 <= n < 100 then ShortDigits(n); f
    else if n < 0 then assert f[|f| - |s|..] == s; f
    else f
  }

  /** The text of the display element. */
  function Rendered(shown: Shown): string
  {
    match shown
    case Blank => ""
    case Unlimited => NoTimeLimit
    case Clock(n) => Display(n)
  }

  /** `stop`: clears the interval; nothing else changes. */
  function Stop(t: Timer): (r: Timer)
    ensures !r.active
    ensures r.remaining == t.remaining && r.danger == t.danger && r.shown == t.shown
    ensures r.expirations == t.expirations
  {
    t.(active := false)
  }

  /** `start(seconds)`, where `None` is `null`. It always stops first. A
      missing or non-positive limit shows "NO TIME LIMIT", clears the danger
      styling and leaves the count where it was; a positive one restarts the
      countdown from `seconds`, leaving the styling as it was. */
  function Start(t: Timer, seconds: Option<int>): (r: Timer)
    ensures r.expirations == t.expirations
    ensures (seconds.None? || seconds.value <= 0) ==>
              !r.active && !r.danger && r.shown == Unlimited && r.remaining == t.remaining
    ensures (seconds.Some? && seconds.value > 0) ==>
              r.active && r.remaining == seconds.value && r.danger == t.danger
              && r.shown == Clock(seconds.value)
  {
    var stopped := Stop(t);
    if seconds.None? || seconds.value <= 0 then
      stopped.(shown := Unlimited, danger := false)
    else
      stopped.(remaining := seconds.value, active := true, shown := Clock(seconds.value))
  }

  /** One interval callback. Only a running timer has an interval, so an
      inactive timer is left alone. A running one loses exactly one second,
      redraws, turns red at thirty seconds or less, and on reaching zero
      stops and fires the expiry callback once. */
  function Tick(t: Timer): (r: Timer)
    ensures !t.active ==> r == t
    ensures t.active ==> r.remaining == t.remaining - 1 && r.shown == Clock(r.remaining)
    ensures t.active ==> (r.danger <==> r.remaining <= DangerThreshold)
    ensures t.active ==> (r.active <==> r.remaining > 0)
    ensures r.expirations == if t.active && t.remaining <= 1 then t.expirations + 1 else t.expirations
  {
    if !t.active then t
    else
      var rem := t.remaining - 1;
      var next := t.(remaining := rem, shown := Clock(rem), danger := rem <= DangerThreshold);
      if rem <= 0 then Stop(next).(expirations := next.expirations + 1) else next
  }

  /** `k` consecutive interval callbacks. */
  function Ticks(t: Timer, k: nat): Timer
    decreases k
  {
    if k == 0 then t else Ticks(Tick(t), k - 1)
  }

  // ---------------------------------------------------------------------
  // The countdown
  // ---------------------------------------------------------------------

  /** A reachable timer never counts below zero, and a running one always
      has time left. */
  predicate Valid(t: Timer)
  {
    t.remaining >= 0 && (t.active ==> t.remaining > 0)
  }

  lemma InitialValid()
    ensures Valid(Initial())
  {
  }

  /** Every operation keeps a timer valid. */
  lemma OperationsKeepValid(t: Timer, seconds: Option<int>)
    requires Valid(t)
    ensures Valid(Start(t, seconds)) && Valid(Stop(t)) && Valid(Tick(t))
  {
  }

  /** Fewer ticks than the seconds left: still running, one second gone per
      tick, and no expiry yet. */
  lemma {:induction false} Running(t: Timer, k: nat)
    requires t.active && k < t.remaining
    ensures Ticks(t, k).active
    ensures Ticks(t, k).remaining == t.remaining - k
    ensures Ticks(t, k).expirations == t.expirations
    decreases k
  {
    if k > 0 {
      Running(Tick(t), k - 1);
    }
  }

  /** A stopped timer stays as it is, however many ticks follow. */
  lemma {:induction false} Stopped(t: Timer, k: nat)
    requires !t.active
    ensures Ticks(t, k) == t
    decreases k
  {
    if k > 0 {
      Stopped(Tick(t), k - 1);
    }
  }

  lemma {:induction false} TicksSplit(t: Timer, a: nat, b: nat)
    ensures Ticks(t, a + b) == Ticks(Ticks(t, a), b)
    decreases a
  {
    if a > 0 {
      TicksSplit(Tick(t), a - 1, b);
    }
  }

  /** Started with `s > 0` seconds, the timer runs for exactly `s` ticks:
      before the `s`-th it is running and has not expired; the `s`-th stops
      it at zero and fires the expiry callback exactly once; later ticks
      change nothing. */
  lemma Countdown(t0: Timer, s: int)
    requires s > 0
    ensures forall k: nat :: k < s ==>
              Ticks(Start(t0, Some(s)), k).active && Ticks(Start(t0, Some(s)), k).remaining == s - k
              && Ticks(Start(t0, Some(s)), k).expirations == t0.expirations
    ensures !Ticks(Start(t0, Some(s)), s).active && Ticks(Start(t0, Some(s)), s).remaining == 0
    ensures Ticks(Start(t0, Some(s)), s).expirations == t0.expirations + 1
    ensures forall k: nat :: k >= s ==> Ticks(Start(t0, Some(s)), k) == Ticks(Start(t0, Some(s)), s)
  {
    var t := Start(t0, Some(s));
    forall k: nat | k < s
      ensures Ticks(t, k).active && Ticks(t, k).remaining == s - k && Ticks(t, k).expirations == t0.expirations
    {
      Running(t, k);
    }
    var last := s - 1;
    Running(t, last);
    TicksSplit(t, last, 1);
    var u := Ticks(t, last);
    assert Ticks(u, 1) == Tick(u);
    forall k: nat | k >= s ensures Ticks(t, k) == Ticks(t, s)
    {
      TicksSplit(t, s, k - s);
      Stopped(Ticks(t, s), k - s);
    }
  }

  // ---------------------------------------------------------------------
  // The display
  // ---------------------------------------------------------------------

  lemma ShortDigits(n: nat)
    requires n < 100
    ensures |Digits(n)| <= 2
  {
  }

  /** For a count that is not negative the display reads `mm:ss`: the
      seconds field is exactly two digits below 60, the minutes field at
      least two digits, and sixty times the minutes plus the seconds is the
      count. */
  lemma DisplayReadable(remaining: int, d: string)
    requires remaining >= 0 && d == Display(remaining)
    ensures |d| >= 5 && d[|d| - 3] == ':'
    ensures IsDigits(d[..|d| - 3]) && IsDigits(d[|d| - 2..])
    ensures Value(d[|d| - 2..]) < 60
    ensures 60 * Value(d[..|d| - 3]) + Value(d[|d| - 2..]) == remaining
  {
    var m, s := remaining / 60, remaining % 60;
    assert 60 * m + s == remaining && s < 60;
    var mm := PadStart(Digits(m), 2, '0');
    var ss := PadStart(Digits(s), 2, '0');
    DisplayParts(remaining, mm, ss);
    ShortDigits(s);
    PaddedValue(m, 2);
    PaddedValue(s, 2);
    ClockSlices(d, mm, ss);
  }

  lemma DisplayParts(remaining: int, mm: string, ss: string)
    requires remaining >= 0
    requires mm == PadStart(Digits(remaining / 60), 2, '0')
    requires ss == PadStart(Digits(remaining % 60), 2, '0')
    ensures Display(remaining) == mm + ":" + ss
  {
    assert JsRem(remaining, 60) == remaining % 60;
  }

  lemma ClockSlices(d: string, mm: string, ss: string)
    requires d == mm + ":" + ss && |mm| >= 2 && |ss| == 2
    ensures |d| >= 5 && d[|d| - 3] == ':'
    ensures d[..|d| - 3] == mm && d[|d| - 2..] == ss
  {
  }

  /** A valid timer never shows a negative field: its clock is either the
      no-limit notice, blank, or a well-formed `mm:ss` of a count that is
      not negative. */
  lemma ValidShown(t: Timer, seconds: Option<int>)
    requires Valid(t) && (t.shown.Clock? ==> t.shown.seconds >= 0)
    ensures Start(t, seconds).shown.Clock? ==> Start(t, seconds).shown.seconds >= 0
    ensures Tick(t).shown.Clock? ==> Tick(t).shown.seconds >= 0
  {
  }
}
