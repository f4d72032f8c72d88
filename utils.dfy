/** The helpers of the client's utility module: text truncation, word
    counting, relative timestamps and the debounce wrapper. */
module Utils {
  import opened Text
  import opened Wrappers

  /** `truncate(text, maxLen)`: an empty text gives '', a text of at most
      maxLen characters is returned as it is, a longer one is cut to its
      first maxLen characters followed by an ellipsis. */
  function Truncate(text: string, maxLen: nat): (r: string)
    ensures |text| <= maxLen ==> r == text
    ensures |text| > maxLen ==> |r| == maxLen + 3 && r[..maxLen] == text[..maxLen] && r[maxLen..] == "..."
    ensures |r| <= maxLen + 3
  {
    if text == "" || |text| <= maxLen then text else text[..maxLen] + "..."
  }

  /* ---------- word counting ---------- */

  /** Number of maximal non-whitespace runs of s (the words), when the
      character before s was whitespace iff afterSpace. */
  function WordsFrom(s: string, afterSpace: bool): nat
  {
    if s == [] then 0
    else (if !IsSpace(s[0]) && afterSpace then 1 else 0) + WordsFrom(s[1..], IsSpace(s[0]))
  }

  /** Number of maximal whitespace runs of s, when the character before s
      was whitespace iff afterSpace. */
  function GapsFrom(s: string, afterSpace: bool): nat
  {
    if s == [] then 0
    else (if IsSpace(s[0]) && !afterSpace then 1 else 0) + GapsFrom(s[1..], IsSpace(s[0]))
  }

  /** The words of a text: its maximal runs of non-whitespace characters. */
  function Words(s: string): nat
  {
    WordsFrom(s, true)
  }

  /** The length of `t.split(/\s+/)` for a text t that does not start with
      whitespace: one piece more than there are whitespace runs. */
  function SplitLength(t: string): nat
  {
    GapsFrom(t, false) + 1
  }

  /** `wordCount(text)`: 0 for a blank text, otherwise the number of pieces
      that splitting the trimmed text at whitespace runs gives, which is
      the number of words of the text. */
  function WordCount(text: string): (r: nat)
    ensures AllSpace(text) ==> r == 0
    ensures !AllSpace(text) ==> r >= 1 && r == Words(text)
  {
    TrimEmptyIff(text);
    if text == "" || Trim(text) == "" then 0
    else
      var t := Trim(text);
      WordsAndGaps(t, false);
      WordsOfTrim(text);
      SplitLength(t)
  }

  /** In a non-empty text ending in a non-whitespace character, there is one
      word per whitespace run, plus one when the text is preceded by
      whitespace. */
  lemma {:induction false} WordsAndGaps(s: string, afterSpace: bool)
    requires s != [] && !IsSpace(s[|s| - 1])
    ensures WordsFrom(s, afterSpace) == GapsFrom(s, afterSpace) + (if afterSpace then 1 else 0)
  {
    if |s| > 1 {
      WordsAndGaps(s[1..], IsSpace(s[0]));
    }
  }

  /** What precedes the rest of the text after having read s. */
  function AfterSpaceOf(s: string, afterSpace: bool): bool
  {
    if s == [] then afterSpace else IsSpace(s[|s| - 1])
  }

  lemma {:induction false} WordsConcat(a: string, b: string, afterSpace: bool)
    ensures WordsFrom(a + b, afterSpace) == WordsFrom(a, afterSpace) + WordsFrom(b, AfterSpaceOf(a, afterSpace))
  {
    if a != [] {
      assert (a + b)[0] == a[0];
      assert (a + b)[1..] == a[1..] + b;
      WordsConcat(a[1..], b, IsSpace(a[0]));
      assert AfterSpaceOf(a[1..], IsSpace(a[0])) == AfterSpaceOf(a, afterSpace) by {
        if |a| > 1 {
          assert a[1..][|a| - 2] == a[|a| - 1];
        }
      }
    } else {
      assert a + b == b;
    }
  }

  lemma {:induction false} NoWordsInSpace(s: string, afterSpace: bool)
    requires AllSpace(s)
    ensures WordsFrom(s, afterSpace) == 0
  {
    if s != [] {
      NoWordsInSpace(s[1..], IsSpace(s[0]));
    }
  }

  /** Leading whitespace holds no words. */
  lemma WordsOfTrimStart(s: string)
    ensures Words(TrimStart(s)) == Words(s)
  {
    var a := TrimStart(s);
    var lead := s[..|s| - |a|];
    assert s == lead + a;
    WordsConcat(lead, a, true);
    NoWordsInSpace(lead, true);
  }

  /** Trailing whitespace holds no words. */
  lemma WordsOfTrimEnd(s: string)
    ensures Words(TrimEnd(s)) == Words(s)
  {
    var t := TrimEnd(s);
    var trail := s[|t|..];
    assert s == t + trail;
    WordsConcat(t, trail, true);
    NoWordsInSpace(trail, AfterSpaceOf(t, true));
  }

  /** Whitespace around a text holds no words. */
  lemma WordsOfTrim(s: string)
    ensures Words(Trim(s)) == Words(s)
  {
    WordsOfTrimStart(s);
    WordsOfTrimEnd(TrimStart(s));
  }

  /* ---------- relative time ---------- */

  /** What `relativeTime` displays. OnDate stands for the localised
      month-and-day text used for dates a week old or more. */
  datatype Age = Blank | JustNow | MinutesAgo(minutes: nat) | HoursAgo(hours: nat) | DaysAgo(days: nat) | OnDate

  /** `relativeTime(dateString)`, given the milliseconds elapsed between
      the stored date and now. Each unit is the floor of the previous one
      divided by its factor. */
  function RelativeTime(dateString: string, elapsedMs: int): (r: Age)
    ensures r == Blank <==> dateString == ""
    ensures dateString != "" && elapsedMs < 60_000 ==> r == JustNow
    ensures dateString != "" && 60_000 <= elapsedMs < 3_600_000 ==> r == MinutesAgo(elapsedMs / 60_000)
    ensures dateString != "" && 3_600_000 <= elapsedMs < 86_400_000 ==> r == HoursAgo(elapsedMs / 3_600_000)
    ensures dateString != "" && 86_400_000 <= elapsedMs < 604_800_000 ==> r == DaysAgo(elapsedMs / 86_400_000)
    ensures dateString != "" && 604_800_000 <= elapsedMs ==> r == OnDate
  {
    if dateString == "" then Blank
    else
      var seconds := elapsedMs / 1000;
      var minutes := seconds / 60;
      var hours := minutes / 60;
      var days := hours / 24;
      NestedFloor(elapsedMs, 1000, 60);
      NestedFloor(elapsedMs, 60_000, 60);
      NestedFloor(elapsedMs, 3_600_000, 24);
      if seconds < 60 then JustNow
      else if minutes < 60 then MinutesAgo(minutes)
      else if hours < 24 then HoursAgo(hours)
      else if days < 7 then DaysAgo(days)
      else OnDate
  }

  /** Flooring twice is flooring once by the product (Dafny's `/` on a
      positive divisor is the floor, like `Math.floor(x / d)`). */
  lemma NestedFloor(x: int, a: int, b: int)
    requires a > 0 && b > 0
    ensures (x / a) / b == x / (a * b)
  {
    var q, r := x / a, x % a;
    var q2, r2 := q / b, q % b;
    assert x == q * a + r;
    assert q == q2 * b + r2;
    assert q * a == q2 * (a * b) + r2 * a by {
      assert q * a == (q2 * b + r2) * a;
      assert (q2 * b + r2) * a == q2 * b * a + r2 * a;
      assert q2 * b * a == q2 * (a * b);
    }
    assert 0 <= r2 * a <= (b - 1) * a by {
      assert 0 <= r2 <= b - 1;
      MulMono(r2, b - 1, a);
    }
    assert (b - 1) * a == a * b - a;
    DivUnique(x, a * b, q2, r2 * a + r);
  }

  lemma MulMono(x: int, y: int, k: int)
    requires 0 <= x <= y && k >= 0
    ensures 0 <= x * k <= y * k
  {
  }

  lemma DivUnique(x: int, d: int, q: int, r: int)
    requires d > 0 && x == q * d + r && 0 <= r < d
    ensures x / d == q
  {
    var q', r' := x / d, x % d;
    assert (q - q') * d == r' - r;
    if q > q' {
      MulMono(1, q - q', d);
    } else if q < q' {
      MulMono(1, q' - q, d);
    }
  }

  /** The text `relativeTime` returns for each bucket. */
  function AgeText(a: Age): (r: string)
    ensures r == "" <==> a.Blank?
    ensures a.MinutesAgo? ==> NumeralThen(r, a.minutes, "m ago")
    ensures a.HoursAgo? ==> NumeralThen(r, a.hours, "h ago")
    ensures a.DaysAgo? ==> NumeralThen(r, a.days, "d ago")
  {
    match a
    case Blank => ""
    case JustNow => "just now"
    case MinutesAgo(n) => NumeralThenSuffix(n, "m ago"); NatToString(n) + "m ago"
    case HoursAgo(n) => NumeralThenSuffix(n, "h ago"); NatToString(n) + "h ago"
    case DaysAgo(n) => NumeralThenSuffix(n, "d ago"); NatToString(n) + "d ago"
    case OnDate => "<localised date>"
  }

  /* ---------- debounce ---------- */

  /** The closure's `timer`: no call pending, or one scheduled at `due`
      with the arguments of the call that scheduled it. */
  datatype Timer<A> = Idle | Pending(due: int, args: A)

  /** Every call cancels the pending one and schedules fn for ms later. */
  function Schedule<A>(now: int, ms: nat, args: A): Timer<A>
  {
    Pending(now + ms, args)
  }

  /** Letting the virtual clock reach `now`: a call that became due runs. */
  function Elapse<A>(t: Timer<A>, now: int): (r: (Timer<A>, Option<A>))
    ensures r.1.Some? <==> (t.Pending? && t.due <= now)
    ensures r.1.Some? ==> r.0 == Idle && r.1.value == t.args
    ensures r.1.None? ==> r.0 == t
  {
    if t.Pending? && t.due <= now then (Idle, Some(t.args)) else (t, None)
  }

  datatype Call<A> = Call(at: int, args: A)

  /** A timeline of calls: before each call the clock advances to its
      time (running what became due), then the call reschedules. Returns
      the final timer and the arguments fn ran with, in order. */
  function Run<A>(t: Timer<A>, ms: nat, calls: seq<Call<A>>): (Timer<A>, seq<A>)
    decreases |calls|
  {
    if calls == [] then (t, [])
    else
      var fired := Elapse(t, calls[0].at).1;
      var rest := Run(Schedule(calls[0].at, ms, calls[0].args), ms, calls[1..]);
      (rest.0, (if fired.Some? then [fired.value] else []) + rest.1)
  }

  /** Calls that follow one another less than ms apart. */
  predicate Burst<A>(calls: seq<Call<A>>, ms: nat)
  {
    forall i :: 0 < i < |calls| ==> calls[i - 1].at <= calls[i].at < calls[i - 1].at + ms
  }

  /** A burst started while nothing is pending (or while the pending call
      is due only after the first call) runs nothing during the burst and
      leaves exactly the last call scheduled, ms after it. */
  lemma {:induction false} BurstRunsNothing<A>(t: Timer<A>, ms: nat, calls: seq<Call<A>>)
    requires calls != [] && Burst(calls, ms)
    requires t.Pending? ==> t.due > calls[0].at
    ensures Run(t, ms, calls) == (Pending(calls[|calls| - 1].at + ms, calls[|calls| - 1].args), [])
    decreases |calls|
  {
    if |calls| > 1 {
      assert Burst(calls[1..], ms) by {
        forall i | 0 < i < |calls[1..]|
          ensures calls[1..][i - 1].at <= calls[1..][i].at < calls[1..][i - 1].at + ms
        {
          assert calls[1..][i - 1] == calls[i] && calls[1..][i] == calls[i + 1];
        }
      }
      BurstRunsNothing(Schedule(calls[0].at, ms, calls[0].args), ms, calls[1..]);
      assert calls[1..][|calls[1..]| - 1] == calls[|calls| - 1];
    }
    assert Elapse(t, calls[0].at).1 == None;
    assert [] + Run(Schedule(calls[0].at, ms, calls[0].args), ms, calls[1..]).1 == Run(Schedule(calls[0].at, ms, calls[0].args), ms, calls[1..]).1;
  }

  /** After a burst, fn runs once, with the last call's arguments, exactly
      when the clock reaches ms after the last call, and not before. */
  lemma BurstFiresOnceWithLastArgs<A>(ms: nat, calls: seq<Call<A>>, now: int)
    requires calls != [] && Burst(calls, ms)
    ensures var last := calls[|calls| - 1];
            var (t, fired) := Run(Idle, ms, calls);
            fired == [] &&
            (Elapse(t, now).1 == if now >= last.at + ms then Some(last.args) else None)
  {
    BurstRunsNothing(Idle, ms, calls);
  }

  /** The closure that `debounce(fn, ms)` returns, with its `timer`. */
  class Debouncer<A> {
    const ms: nat
    var timer: Timer<A>

    constructor (ms: nat)
      ensures this.ms == ms && timer == Idle
    {
      this.ms := ms;
      timer := Idle;
    }

    /** Calling the debounced function at time `now`. */
    method Invoke(now: int, args: A)
      modifies this
      ensures timer == Schedule(now, ms, args)
    {
      timer := Pending(now + ms, args);
    }

    /** The event loop reaching time `now`; returns the arguments fn ran with, if it ran. */
    method Tick(now: int) returns (ran: Option<A>)
      modifies this
      ensures (timer, ran) == Elapse(old(timer), now)
    {
      if timer.Pending? && timer.due <= now {
        ran := Some(timer.args);
        timer := Idle;
      } else {
        ran := None;
      }
    }
  }
}
