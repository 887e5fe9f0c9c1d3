/**
  The error-limiting notifier (notifier/notifier.go) and how the scheduler drives it (dewy.go).
  What is sent over a whole run is stated from the events alone; the counter, capped at
  MAX_ERROR_COUNT, is an implementation of it.
 */
module ErrorLimiter {

  const MAX_NOTIFY_ERRORS: int := 3
  const MAX_ERROR_COUNT: nat := 1000

  /** What reaches the underlying sender. */
  datatype Notice = Plain(text: string) | Error(count: nat, err: string, last: bool)

  /** What the notifier is told: an ordinary or important message, a failed or a succeeded operation. */
  datatype Event = Message(note: Note) | Failure(err: string) | Success

  datatype Note = Note(text: string, important: bool)

  function Min(a: nat, b: nat): nat { if a < b then a else b }

  // ----- what should be sent -----

  /** Failures since the last success. */
  function Streak(es: seq<Event>): nat {
    if es == [] then 0
    else
      var before := Streak(es[..|es| - 1]);
      match es[|es| - 1]
      case Failure(_) => before + 1
      case Success => 0
      case Message(_) => before
  }

  /** What event e adds when it comes after es. */
  function NoticeOf(quiet: bool, es: seq<Event>, e: Event): seq<Notice> {
    match e
    case Message(m) => if Streak(es) == 0 && (m.important || !quiet) then [Plain(m.text)] else []
    case Failure(err) =>
      var n := Streak(es) + 1;
      if n <= MAX_NOTIFY_ERRORS then [Error(n, err, n == MAX_NOTIFY_ERRORS)] else []
    case Success => []
  }

  function Notices(quiet: bool, es: seq<Event>): seq<Notice> {
    if es == [] then [] else Notices(quiet, es[..|es| - 1]) + NoticeOf(quiet, es[..|es| - 1], es[|es| - 1])
  }

  lemma Snoc(quiet: bool, es: seq<Event>, e: Event)
    ensures Streak(es + [e]) == (match e case Failure(_) => Streak(es) + 1 case Success => 0 case Message(_) => Streak(es))
    ensures Notices(quiet, es + [e]) == Notices(quiet, es) + NoticeOf(quiet, es, e)
    ensures Outcomes(es + [e]) == Outcomes(es) + if e.Message? then [] else [e.Failure?]
  {
    assert (es + [e])[..|es|] == es;
  }

  // ----- the notifier -----

  class ErrorLimitingSender {
    var errorCount: nat
    const quiet: bool
    /** The calls made on the underlying sender. */
    var sent: seq<Notice>
    ghost var events: seq<Event>

    /** The capped counter never changes what is sent. */
    ghost predicate Valid()
      reads this
    {
      errorCount == Min(Streak(events), MAX_ERROR_COUNT) && sent == Notices(quiet, events)
    }

    constructor (quiet: bool)
      ensures Valid() && events == [] && this.quiet == quiet
    {
      this.quiet := quiet;
      errorCount, sent, events := 0, [], [];
    }

    ghost method Record(e: Event)
      modifies this`events
      ensures events == old(events) + [e]
      ensures Streak(events) == (match e case Failure(_) => old(Streak(events)) + 1 case Success => 0 case Message(_) => old(Streak(events)))
      ensures Notices(quiet, events) == old(Notices(quiet, events)) + old(NoticeOf(quiet, events, e))
    {
      Snoc(quiet, events, e);
      events := events + [e];
    }

    method Send(message: string)
      requires Valid()
      modifies this
      ensures Valid() && events == old(events) + [Message(Note(message, false))]
    {
      if errorCount == 0 && !quiet {
        sent := sent + [Plain(message)];
      }
      Record(Message(Note(message, false)));
    }

    method SendImportant(message: string)
      requires Valid()
      modifies this
      ensures Valid() && events == old(events) + [Message(Note(message, true))]
    {
      if errorCount == 0 {
        sent := sent + [Plain(message)];
      }
      Record(Message(Note(message, true)));
    }

    method SendError(err: string)
      requires Valid()
      modifies this
      ensures Valid() && events == old(events) + [Failure(err)]
    {
      if errorCount < MAX_ERROR_COUNT {
        errorCount := errorCount + 1;
      }
      if errorCount < MAX_NOTIFY_ERRORS {
        sent := sent + [Error(errorCount, err, false)];
      } else if errorCount == MAX_NOTIFY_ERRORS {
        sent := sent + [Error(errorCount, err, true)];
      }
      Record(Failure(err));
    }

    method ResetErrorCount()
      requires Valid()
      modifies this
      ensures Valid() && events == old(events) + [Success]
    {
      if errorCount > 0 {
        errorCount := 0;
      }
      Record(Success);
    }

    method SendNote(m: Note)
      requires Valid()
      modifies this
      ensures Valid() && events == old(events) + [Message(m)]
    {
      if m.important {
        SendImportant(m.text);
      } else {
        Send(m.text);
      }
    }

    method SendAll(ms: seq<Note>)
      requires Valid()
      modifies this
      ensures Valid() && events == old(events) + Messages(ms)
    {
      for i := 0 to |ms|
        invariant Valid() && events == old(events) + Messages(ms[..i])
      {
        SendNote(ms[i]);
        MessagesNext(old(events), ms, i);
      }
      assert ms[..|ms|] == ms;
    }

    /** One tick of the scheduler: the run sends messages as it goes, then ends in an error or not. */
    method RunTick(t: Tick)
      requires Valid()
      modifies this
      ensures Valid() && events == old(events) + TickEvents(t)
    {
      SendAll(t.messages);
      if t.failed {
        SendError(t.err);
      } else {
        ResetErrorCount();
      }
    }

    method RunTicks(ts: seq<Tick>)
      requires Valid()
      modifies this
      ensures Valid() && events == old(events) + Flatten(ts)
    {
      for i := 0 to |ts|
        invariant Valid() && events == old(events) + Flatten(ts[..i])
      {
        RunTick(ts[i]);
        FlattenNext(old(events), ts, i);
      }
      assert ts[..|ts|] == ts;
    }
  }

  datatype Tick = Tick(messages: seq<Note>, failed: bool, err: string)

  function Outcome(t: Tick): Event {
    if t.failed then Failure(t.err) else Success
  }

  function Messages(ms: seq<Note>): seq<Event> {
    seq(|ms|, i requires 0 <= i < |ms| => Message(ms[i]))
  }

  lemma MessagesNext(es: seq<Event>, ms: seq<Note>, i: nat)
    requires i < |ms|
    ensures es + Messages(ms[..i + 1]) == (es + Messages(ms[..i])) + [Message(ms[i])]
  {
  }

  function TickEvents(t: Tick): seq<Event> {
    Messages(t.messages) + [Outcome(t)]
  }

  function Flatten(ts: seq<Tick>): seq<Event> {
    if ts == [] then [] else Flatten(ts[..|ts| - 1]) + TickEvents(ts[|ts| - 1])
  }

  // ----- messages are silent exactly inside a streak -----

  /** Some failure in es has no success after it. */
  ghost predicate Failing(es: seq<Event>) {
    exists j :: 0 <= j < |es| && es[j].Failure? && forall k :: j < k < |es| ==> !es[k].Success?
  }

  lemma {:induction false} FailingExactly(es: seq<Event>)
    ensures Streak(es) > 0 <==> Failing(es)
  {
    if es != [] {
      var p, e := es[..|es| - 1], es[|es| - 1];
      FailingExactly(p);
      if Failing(p) && !e.Success? {
        var j :| 0 <= j < |p| && p[j].Failure? && forall k :: j < k < |p| ==> !p[k].Success?;
        assert es[j].Failure? && forall k :: j < k < |es| ==> !es[k].Success?;
      }
      if Failing(es) && e.Message? {
        var j :| 0 <= j < |es| && es[j].Failure? && forall k :: j < k < |es| ==> !es[k].Success?;
        assert p[j].Failure? && forall k :: j < k < |p| ==> !p[k].Success?;
      }
      if e.Failure? { assert es[|es| - 1].Failure?; }
    }
  }

  /** A message in the middle of a run is sent exactly when every failure before it has been
      followed by a success and, in quiet mode, it is important. */
  lemma MessageSentExactly(quiet: bool, es: seq<Event>, i: nat)
    requires i < |es| && es[i].Message?
    ensures Notices(quiet, es[..i + 1]) ==
            Notices(quiet, es[..i]) + if !Failing(es[..i]) && (es[i].note.important || !quiet) then [Plain(es[i].note.text)] else []
  {
    FailingExactly(es[..i]);
    assert es[..i + 1][..i] == es[..i];
  }

  /** Messages do not end a streak, and within one they are silent. */
  lemma {:induction false} AfterMessages(quiet: bool, es: seq<Event>, ms: seq<Note>)
    ensures Streak(es + Messages(ms)) == Streak(es) && Outcomes(es + Messages(ms)) == Outcomes(es)
    ensures Notices(quiet, es + Messages(ms)) == Notices(quiet, es) + if Streak(es) > 0 then [] else Unlimited(quiet, ms)
    decreases |ms|
  {
    if ms == [] {
      assert es + Messages(ms) == es;
    } else {
      var p, m := ms[..|ms| - 1], ms[|ms| - 1];
      assert es + Messages(ms) == (es + Messages(p)) + [Message(m)];
      AfterMessages(quiet, es, p);
      Snoc(quiet, es + Messages(p), Message(m));
    }
  }

  /** The messages that quiet mode lets through. */
  function Unlimited(quiet: bool, ms: seq<Note>): seq<Notice> {
    if ms == [] then []
    else
      var m := ms[|ms| - 1];
      Unlimited(quiet, ms[..|ms| - 1]) + if m.important || !quiet then [Plain(m.text)] else []
  }

  lemma FlattenSnoc(ts: seq<Tick>, t: Tick)
    ensures Flatten(ts + [t]) == (Flatten(ts) + Messages(t.messages)) + [Outcome(t)]
  {
    assert (ts + [t])[..|ts|] == ts;
  }

  lemma LastFailed(ts: seq<Tick>)
    ensures Streak(Flatten(ts)) > 0 <==> ts != [] && ts[|ts| - 1].failed
  {
    if ts != [] {
      var t := ts[|ts| - 1];
      var es := Flatten(ts[..|ts| - 1]) + Messages(t.messages);
      assert Flatten(ts) == es + [Outcome(t)];
      Snoc(true, es, Outcome(t));
    }
  }

  lemma FlattenNext(es: seq<Event>, ts: seq<Tick>, i: nat)
    requires i < |ts|
    ensures es + Flatten(ts[..i + 1]) == (es + Flatten(ts[..i])) + TickEvents(ts[i])
  {
    assert ts[..i + 1] == ts[..i] + [ts[i]];
    FlattenSnoc(ts[..i], ts[i]);
  }

  /** The messages of a tick are sent exactly when the tick before it did not fail: a tick that
      recovers from a failure is itself still silent. */
  lemma TickNotices(quiet: bool, ts: seq<Tick>, t: Tick)
    ensures Notices(quiet, Flatten(ts + [t])) ==
            Notices(quiet, Flatten(ts))
            + (if ts != [] && ts[|ts| - 1].failed then [] else Unlimited(quiet, t.messages))
            + NoticeOf(quiet, Flatten(ts), Outcome(t))
  {
    FlattenSnoc(ts, t);
    Snoc(quiet, Flatten(ts) + Messages(t.messages), Outcome(t));
    AfterMessages(quiet, Flatten(ts), t.messages);
    LastFailed(ts);
  }

  // ----- how many errors are sent -----

  function ErrorsIn(ns: seq<Notice>): nat {
    if ns == [] then 0 else ErrorsIn(ns[..|ns| - 1]) + if ns[|ns| - 1].Error? then 1 else 0
  }

  /** Whether each operation failed, messages left aside. */
  function Outcomes(es: seq<Event>): seq<bool> {
    if es == [] then []
    else Outcomes(es[..|es| - 1]) + if es[|es| - 1].Message? then [] else [es[|es| - 1].Failure?]
  }

  predicate AllFailed(o: seq<bool>, a: nat, b: nat)
    requires b <= |o|
  {
    forall i :: a <= i < b ==> o[i]
  }

  /** The outcomes from a to b are a longest possible streak of failures. */
  predicate MaximalStreak(o: seq<bool>, a: nat, b: nat) {
    && a < b <= |o| && AllFailed(o, a, b)
    && (a == 0 || !o[a - 1]) && (b == |o| || !o[b])
  }

  /** The streaks after one more failure at position n. */
  function Extend(ss: seq<(nat, nat)>, n: nat): seq<(nat, nat)> {
    if ss != [] && ss[|ss| - 1].1 == n then ss[..|ss| - 1] + [(ss[|ss| - 1].0, n + 1)] else ss + [(n, n + 1)]
  }

  /** The failure streaks of a run, in order. */
  function Streaks(o: seq<bool>): seq<(nat, nat)> {
    if o == [] then []
    else if o[|o| - 1] then Extend(Streaks(o[..|o| - 1]), |o| - 1)
    else Streaks(o[..|o| - 1])
  }

  /** In order, apart, and within the first n positions. */
  predicate Increasing(ss: seq<(nat, nat)>, n: nat) {
    && (forall i :: 0 <= i < |ss| ==> ss[i].0 < ss[i].1 <= n)
    && (forall i, j :: 0 <= i < j < |ss| ==> ss[i].1 < ss[j].0)
  }

  lemma ExtendIncreasing(ss: seq<(nat, nat)>, n: nat)
    requires Increasing(ss, n)
    ensures Increasing(Extend(ss, n), n + 1)
  {
    if ss != [] {
      var last := ss[|ss| - 1];
      forall i | 0 <= i < |ss| - 1 ensures ss[i].1 < last.0 <= n {}
    }
  }

  lemma {:induction false} StreaksIncreasing(o: seq<bool>)
    ensures Increasing(Streaks(o), |o|)
  {
    if o != [] {
      StreaksIncreasing(o[..|o| - 1]);
      if o[|o| - 1] { ExtendIncreasing(Streaks(o[..|o| - 1]), |o| - 1); }
    }
  }

  lemma AllFailedSnoc(o: seq<bool>, f: bool, a: nat, b: nat)
    requires b <= |o|
    ensures AllFailed(o + [f], a, b) <==> AllFailed(o, a, b)
    ensures a <= |o| ==> (AllFailed(o + [f], a, |o| + 1) <==> AllFailed(o, a, |o|) && f)
  {
    var o' := o + [f];
    assert forall i {:trigger o[i]} {:trigger o'[i]} :: 0 <= i < |o| ==> o'[i] == o[i];
    assert o'[|o|] == f;
  }

  lemma MaximalSnoc(o: seq<bool>, f: bool, a: nat, b: nat)
    ensures b < |o| ==> (MaximalStreak(o + [f], a, b) <==> MaximalStreak(o, a, b))
    ensures b == |o| ==> (MaximalStreak(o + [f], a, b) <==> MaximalStreak(o, a, b) && !f)
    ensures b == |o| + 1 && a < |o| ==> (MaximalStreak(o + [f], a, b) <==> MaximalStreak(o, a, |o|) && f)
    ensures b == |o| + 1 && a == |o| ==> (MaximalStreak(o + [f], a, b) <==> f && (o == [] || !o[|o| - 1]))
  {
    var o' := o + [f];
    assert forall i {:trigger o[i]} {:trigger o'[i]} :: 0 <= i < |o| ==> o'[i] == o[i];
    assert o'[|o|] == f;
    AllFailedSnoc(o, f, a, if b <= |o| then b else |o|);
  }

  lemma InLast(ss: seq<(nat, nat)>, n: nat, a: nat)
    requires Increasing(ss, n)
    ensures (a, n) in ss <==> ss != [] && ss[|ss| - 1] == (a, n)
  {
    if i :| 0 <= i < |ss| && ss[i] == (a, n) {
      var last := ss[|ss| - 1];
      assert last.0 < last.1 <= n && forall j :: 0 <= j < |ss| - 1 ==> ss[j].1 < last.0;
    }
  }

  /** The streaks before one that ends at n all end earlier. */
  lemma InInit(ss: seq<(nat, nat)>, n: nat, a: nat, b: nat)
    requires Increasing(ss, n) && ss != [] && ss[|ss| - 1].1 == n
    ensures (a, b) in ss[..|ss| - 1] <==> (a, b) in ss && b < n
  {
    var k := |ss| - 1;
    assert ss == ss[..k] + [ss[k]];
    assert forall i :: 0 <= i < k ==> ss[i].1 < ss[k].0 < n;
  }

  lemma NoneEnds(ss: seq<(nat, nat)>, n: nat, a: nat, b: nat)
    requires Increasing(ss, n) && (ss == [] || ss[|ss| - 1].1 != n) && (a, b) in ss
    ensures b < n
  {
    var last := ss[|ss| - 1];
    assert forall i :: 0 <= i < |ss| - 1 ==> ss[i].1 < last.0 < last.1;
  }

  lemma InExtend(ss: seq<(nat, nat)>, n: nat, a: nat, b: nat)
    requires Increasing(ss, n)
    ensures (a, b) in Extend(ss, n) <==>
            if b <= n then b < n && (a, b) in ss
            else b == n + 1 && ((a, n) in ss || (a == n && forall c: nat :: (c, n) !in ss))
  {
    if ss != [] && ss[|ss| - 1].1 == n {
      var last := ss[|ss| - 1];
      InInit(ss, n, a, b);
      InLast(ss, n, a);
      assert last == (last.0, n) && last in ss;
    } else {
      if (a, b) in ss { NoneEnds(ss, n, a, b); }
      forall c: nat ensures (c, n) !in ss {
        InLast(ss, n, c);
      }
    }
  }

  lemma NotBeyond(ss: seq<(nat, nat)>, n: nat, a: nat, b: nat)
    requires Increasing(ss, n) && b > n
    ensures (a, b) !in ss
  {
  }

  /** Streaks lists exactly the longest streaks. */
  lemma {:induction false} StreaksExactly(o: seq<bool>, a: nat, b: nat)
    ensures (a, b) in Streaks(o) <==> MaximalStreak(o, a, b)
    decreases |o|
  {
    if o != [] {
      var p, f, n := o[..|o| - 1], o[|o| - 1], |o| - 1;
      assert o == p + [f];
      StreaksIncreasing(p);
      StreaksIncreasing(o);
      MaximalSnoc(p, f, a, b);
      StreaksExactly(p, a, b);
      StreaksExactly(p, a, n);
      if f {
        InExtend(Streaks(p), n, a, b);
        OpenAtEnd(p);
      }
    }
  }

  lemma {:induction false} OpenAtEnd(o: seq<bool>)
    ensures (exists c: nat :: (c, |o|) in Streaks(o)) <==> o != [] && o[|o| - 1]
  {
    if o != [] {
      var p, n := o[..|o| - 1], |o| - 1;
      StreaksIncreasing(p);
      if o[n] {
        var last := Extend(Streaks(p), n)[|Extend(Streaks(p), n)| - 1];
        assert (last.0, |o|) in Streaks(o);
      } else {
        forall c: nat ensures (c, |o|) !in Streaks(o) { NotBeyond(Streaks(p), n, c, |o|); }
      }
    }
  }

  function CappedSum(ss: seq<(nat, nat)>): int {
    if ss == [] then 0
    else
      var a: int, b: int := ss[|ss| - 1].0, ss[|ss| - 1].1;
      CappedSum(ss[..|ss| - 1]) + if b - a < MAX_NOTIFY_ERRORS then b - a else MAX_NOTIFY_ERRORS
  }

  lemma {:induction false} ErrorsConcat(a: seq<Notice>, b: seq<Notice>)
    ensures ErrorsIn(a + b) == ErrorsIn(a) + ErrorsIn(b)
    decreases |b|
  {
    if b == [] {
      assert a + b == a;
    } else {
      assert (a + b)[..|a + b| - 1] == a + b[..|b| - 1];
      ErrorsConcat(a, b[..|b| - 1]);
    }
  }

  /** The streak still open after n failures at the end of o. */
  predicate Open(o: seq<bool>, n: nat) {
    var ss := Streaks(o);
    n <= |o| && if n > 0 then ss != [] && ss[|ss| - 1] == (|o| - n, |o|) else ss == [] || ss[|ss| - 1].1 < |o|
  }

  lemma OpenSnoc(o: seq<bool>, f: bool, n: nat)
    requires Open(o, n)
    ensures Open(o + [f], if f then n + 1 else 0)
  {
    assert (o + [f])[..|o|] == o;
    StreaksIncreasing(o);
  }

  lemma {:induction false} OpenStreak(es: seq<Event>)
    ensures Open(Outcomes(es), Streak(es))
  {
    if es != [] {
      var p, e := es[..|es| - 1], es[|es| - 1];
      assert es == p + [e];
      Snoc(true, p, e);
      OpenStreak(p);
      if e.Message? {
        assert Outcomes(es) == Outcomes(p);
      } else {
        OpenSnoc(Outcomes(p), e.Failure?, Streak(p));
      }
    }
  }

  /** The errors sent in a run: every failure streak contributes its length, but at most three. */
  lemma {:induction false} ErrorsSent(quiet: bool, es: seq<Event>)
    ensures ErrorsIn(Notices(quiet, es)) == CappedSum(Streaks(Outcomes(es)))
  {
    if es != [] {
      var p, e := es[..|es| - 1], es[|es| - 1];
      assert es == p + [e];
      Snoc(quiet, p, e);
      ErrorsSent(quiet, p);
      ErrorsConcat(Notices(quiet, p), NoticeOf(quiet, p, e));
      OneNotice(quiet, p, e);
      OpenStreak(p);
      match e
      case Message(_) => assert Outcomes(es) == Outcomes(p);
      case Success => assert (Outcomes(p) + [false])[..|Outcomes(p)|] == Outcomes(p);
      case Failure(_) => GrowSum(Outcomes(p), Streak(p));
    }
  }

  /** A failure in the middle of a run, the k-th of its streak so far, adds one notice with its own text,
      its number k and, on the third, the mark that it is the last; none if k is more than three. The
      streak begins at outcome a, and the failure is the outcome before position b. */
  lemma FailureSentExactly(quiet: bool, es: seq<Event>, i: nat) returns (a: nat, b: nat)
    requires i < |es| && es[i].Failure?
    ensures b == |Outcomes(es[..i + 1])| && MaximalStreak(Outcomes(es[..i + 1]), a, b)
    ensures Notices(quiet, es[..i + 1]) ==
            Notices(quiet, es[..i]) + if b - a <= 3 then [Error(b - a, es[i].err, b - a == 3)] else []
  {
    var p := es[..i];
    assert es[..i + 1] == p + [es[i]];
    Snoc(quiet, p, es[i]);
    OpenStreak(es[..i + 1]);
    var o := Outcomes(es[..i + 1]);
    a, b := |o| - Streak(es[..i + 1]), |o|;
    StreaksExactly(o, a, b);
    assert Streaks(o)[|Streaks(o)| - 1] in Streaks(o);
  }

  /** Longest streaks with the same end begin at the same place, so k is determined. */
  lemma StreakStart(o: seq<bool>, a: nat, a': nat, b: nat)
    requires MaximalStreak(o, a, b) && MaximalStreak(o, a', b)
    ensures a == a'
  {
  }

  lemma OneNotice(quiet: bool, es: seq<Event>, e: Event)
    ensures ErrorsIn(NoticeOf(quiet, es, e)) == if e.Failure? && Streak(es) < MAX_NOTIFY_ERRORS then 1 else 0
  {
    var ns := NoticeOf(quiet, es, e);
    if ns != [] { assert ns[..|ns| - 1] == []; }
  }

  lemma GrowSum(o: seq<bool>, n: nat)
    requires Open(o, n)
    ensures CappedSum(Streaks(o + [true])) == CappedSum(Streaks(o)) + if n < MAX_NOTIFY_ERRORS then 1 else 0
  {
    var ss, ss' := Streaks(o), Streaks(o + [true]);
    assert (o + [true])[..|o|] == o;
    if n > 0 {
      assert ss'[..|ss'| - 1] == ss[..|ss| - 1];
    } else {
      assert ss'[..|ss'| - 1] == ss;
    }
  }

  /** Over ticks: the outcomes are the ticks' own, whatever messages they sent. */
  lemma {:induction false} TickOutcomes(ts: seq<Tick>)
    ensures Outcomes(Flatten(ts)) == seq(|ts|, i requires 0 <= i < |ts| => ts[i].failed)
  {
    if ts != [] {
      var p, t := ts[..|ts| - 1], ts[|ts| - 1];
      assert ts == p + [t];
      TickOutcomes(p);
      FlattenSnoc(p, t);
      AfterMessages(true, Flatten(p), t.messages);
      Snoc(true, Flatten(p) + Messages(t.messages), Outcome(t));
    }
  }

  lemma TickErrorsSent(quiet: bool, ts: seq<Tick>)
    ensures ErrorsIn(Notices(quiet, Flatten(ts))) == CappedSum(Streaks(seq(|ts|, i requires 0 <= i < |ts| => ts[i].failed)))
  {
    ErrorsSent(quiet, Flatten(ts));
    TickOutcomes(ts);
  }
}
