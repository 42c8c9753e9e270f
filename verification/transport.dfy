/**
  The transaction loop of `sendCommand`: frame the code, then per attempt flush,
  write, wait for the line to become readable and read one section up to `>`.

  The serial port is abstracted to the outcome of each attempt, in order:
  - `WriteFail`: the write failed; the call gives up at once.
  - `SelectErr`: waiting for input failed; the call gives up at once.
  - `Timeout`: nothing arrived in time; this spends one of the three attempts.
  - `ReadErr`: the read failed; the frame is written again WITHOUT spending an
    attempt (the inner loop never reaches the attempt counter).
  - `Ok(section)`: a section ending at `>` was read.
  When the given outcomes run out the device is taken to be silent: every further
  attempt times out.
 */
module Transport {
  import opened Wire

  /** Total attempts before the call gives up on timeouts. */
  const MaxRetries: nat := 3

  datatype Attempt = WriteFail | SelectErr | Timeout | ReadErr | Ok(section: string)

  datatype Failure = PortClosed | WriteError | SelectError | RetriesExhausted

  datatype Reply = Acked(payload: string) | Failed(failure: Failure)

  /** One call of `sendCommand`: the frames it wrote, what it returned, and the
      attempt outcomes it left unconsumed. */
  datatype Transaction = Transaction(frames: seq<string>, reply: Reply, rest: seq<Attempt>)

  /** Outcomes that make the loop write the frame again. */
  predicate Retrying(a: Attempt) {
    a.Timeout? || a.ReadErr?
  }

  predicate AllRetrying(p: seq<Attempt>) {
    forall i | 0 <= i < |p| :: Retrying(p[i])
  }

  /** Number of timeouts in a run of outcomes: the attempts they spend. */
  function Timeouts(p: seq<Attempt>): nat {
    if |p| == 0 then 0 else Timeouts(p[..|p| - 1]) + (if p[|p| - 1].Timeout? then 1 else 0)
  }

  /** `n` copies of one frame. */
  function Repeat(frame: string, n: nat): (s: seq<string>)
    ensures |s| == n
    ensures forall i | 0 <= i < n :: s[i] == frame
  {
    if n == 0 then [] else [frame] + Repeat(frame, n - 1)
  }

  /** One more write of the same frame in front of a later round's traffic. */
  function Resend(frame: string, t: Transaction): (r: Transaction)
    requires t.frames == Repeat(frame, |t.frames|)
    ensures r.frames == Repeat(frame, |t.frames| + 1) && r.reply == t.reply && r.rest == t.rest
  {
    Transaction([frame] + t.frames, t.reply, t.rest)
  }

  /** The loop from the point where `used` attempts have timed out. */
  function Run(frame: string, attempts: seq<Attempt>, used: nat): (t: Transaction)
    requires used < MaxRetries
    ensures t.frames == Repeat(frame, |t.frames|)
    ensures |t.rest| <= |attempts| && t.rest == attempts[|attempts| - |t.rest|..]
    ensures t.reply.Failed? ==> t.reply.failure != PortClosed
    ensures t.reply.Failed? && t.reply.failure == RetriesExhausted ==> |t.frames| >= MaxRetries - used
    ensures t.reply.Acked? ==> |t.frames| >= 1
    decreases |attempts|, MaxRetries - used
  {
    if |attempts| == 0 then
      if used + 1 < MaxRetries then
        Resend(frame, Run(frame, [], used + 1))
      else
        Transaction([frame], Failed(RetriesExhausted), [])
    else
      var rest := attempts[1..];
      match attempts[0]
      case WriteFail => Transaction([], Failed(WriteError), rest)
      case SelectErr => Transaction([frame], Failed(SelectError), rest)
      case Timeout =>
        if used + 1 < MaxRetries then
          var t := Run(frame, rest, used + 1);
          assert rest[|rest| - |t.rest|..] == attempts[|attempts| - |t.rest|..];
          Resend(frame, t)
        else
          Transaction([frame], Failed(RetriesExhausted), rest)
      case ReadErr =>
        var t := Run(frame, rest, used);
        assert rest[|rest| - |t.rest|..] == attempts[|attempts| - |t.rest|..];
        Resend(frame, t)
      case Ok(section) => Transaction([frame], Acked(Payload(section)), rest)
  }

  /** `sendCommand`: nothing is written when the port is not open. */
  function Send(portOpen: bool, code: string, attempts: seq<Attempt>): (t: Transaction)
    ensures forall i | 0 <= i < |t.frames| :: t.frames[i] == Frame(code)
    ensures !portOpen ==> t == Transaction([], Failed(PortClosed), attempts)
    ensures |t.rest| <= |attempts| && t.rest == attempts[|attempts| - |t.rest|..]
    ensures t.reply == Failed(RetriesExhausted) ==> |t.frames| >= MaxRetries
  {
    if portOpen then Run(Frame(code), attempts, 0)
    else Transaction([], Failed(PortClosed), attempts)
  }

  /** How an outcome that ends the loop is reported. */
  function Verdict(a: Attempt): Reply
    requires !Retrying(a)
  {
    match a
    case WriteFail => Failed(WriteError)
    case SelectErr => Failed(SelectError)
    case Ok(section) => Acked(Payload(section))
  }

  /** Frames written by the attempt that ends the loop. */
  function Written(a: Attempt): nat {
    if a.WriteFail? then 0 else 1
  }

  lemma TimeoutsSnoc(p: seq<Attempt>, a: Attempt)
    ensures Timeouts(p + [a]) == Timeouts(p) + (if a.Timeout? then 1 else 0)
  {
    assert (p + [a])[..|p + [a]| - 1] == p;
  }

  lemma {:induction false} TimeoutsCons(a: Attempt, p: seq<Attempt>)
    ensures Timeouts([a] + p) == (if a.Timeout? then 1 else 0) + Timeouts(p)
    decreases |p|
  {
    if |p| == 0 {
      assert [a] + p == [a];
      assert ([a] + p)[..0] == [];
    } else {
      var q := p[..|p| - 1];
      assert [a] + p == ([a] + q) + [p[|p| - 1]];
      assert p == q + [p[|p| - 1]];
      TimeoutsSnoc([a] + q, p[|p| - 1]);
      TimeoutsSnoc(q, p[|p| - 1]);
      TimeoutsCons(a, q);
    }
  }

  /** A run of retrying outcomes followed by a decisive one: every retry rewrote the
      frame, and the decisive outcome alone fixes the reply. */
  lemma {:induction false} DecidedBy(frame: string, p: seq<Attempt>, x: Attempt, rest: seq<Attempt>, used: nat)
    requires AllRetrying(p) && !Retrying(x)
    requires used + Timeouts(p) < MaxRetries
    ensures Run(frame, p + [x] + rest, used) == Transaction(Repeat(frame, |p| + Written(x)), Verdict(x), rest)
    decreases |p|
  {
    if |p| == 0 {
      assert p + [x] + rest == [x] + rest;
    } else {
      var q := p[1..];
      assert p + [x] + rest == [p[0]] + (q + [x] + rest);
      TimeoutsCons(p[0], q);
      assert p == [p[0]] + q;
      DecidedBy(frame, q, x, rest, if p[0].Timeout? then used + 1 else used);
    }
  }

  /** A run of retrying outcomes whose timeouts use up the last attempt. */
  lemma {:induction false} ExhaustedBy(frame: string, p: seq<Attempt>, rest: seq<Attempt>, used: nat)
    requires AllRetrying(p)
    requires used + Timeouts(p) == MaxRetries - 1
    ensures Run(frame, p + [Timeout] + rest, used) == Transaction(Repeat(frame, |p| + 1), Failed(RetriesExhausted), rest)
    decreases |p|
  {
    if |p| == 0 {
      assert p + [Timeout] + rest == [Timeout] + rest;
    } else {
      var q := p[1..];
      assert p + [Timeout] + rest == [p[0]] + (q + [Timeout] + rest);
      TimeoutsCons(p[0], q);
      assert p == [p[0]] + q;
      ExhaustedBy(frame, q, rest, if p[0].Timeout? then used + 1 else used);
    }
  }

  /** When every given outcome is a retry and attempts remain, the silent device
      times out the rest of them. With `Run`'s own contract (every frame is `frame`)
      this fixes the whole transaction. */
  lemma {:induction false} SilentAfter(frame: string, p: seq<Attempt>, used: nat)
    requires AllRetrying(p)
    requires used + Timeouts(p) < MaxRetries
    ensures var t := Run(frame, p, used);
            && t.reply == Failed(RetriesExhausted) && t.rest == []
            && |t.frames| == |p| + MaxRetries - used - Timeouts(p)
    decreases |p|, MaxRetries - used
  {
    if |p| == 0 {
      assert Timeouts(p) == 0;
      Silent(frame, used);
    } else {
      var q := p[1..];
      TimeoutsCons(p[0], q);
      assert p == [p[0]] + q;
      var used' := if p[0].Timeout? then used + 1 else used;
      SilentAfter(frame, q, used');
      RetryStep(frame, p, used);
    }
  }

  /** With no outcomes left, every remaining attempt times out. */
  lemma {:induction false} Silent(frame: string, used: nat)
    requires used < MaxRetries
    ensures var t := Run(frame, [], used);
            t.reply == Failed(RetriesExhausted) && t.rest == [] && |t.frames| == MaxRetries - used
    decreases MaxRetries - used
  {
    if used + 1 < MaxRetries {
      Silent(frame, used + 1);
      assert Run(frame, [], used) == Resend(frame, Run(frame, [], used + 1));
    } else {
      assert Run(frame, [], used) == Transaction([frame], Failed(RetriesExhausted), []);
    }
  }

  /** A timeout or read error costs one write and hands the rest to the next round. */
  lemma RetryStep(frame: string, p: seq<Attempt>, used: nat)
    requires |p| > 0 && Retrying(p[0]) && used < MaxRetries
    requires p[0].Timeout? ==> used + 1 < MaxRetries
    ensures var t := Run(frame, p[1..], if p[0].Timeout? then used + 1 else used);
            Run(frame, p, used) == Resend(frame, t)
  {
  }

  /** Some `Ok` outcome is reached before any write or wait failure and before the
      attempts run out. */
  ghost predicate ReachesOk(a: seq<Attempt>, used: nat) {
    exists j | 0 <= j < |a| :: a[j].Ok? && AllRetrying(a[..j]) && used + Timeouts(a[..j]) < MaxRetries
  }

  lemma {:induction false} AckedReachesOk(frame: string, a: seq<Attempt>, used: nat)
    requires used < MaxRetries
    requires Run(frame, a, used).reply.Acked?
    ensures ReachesOk(a, used)
    decreases |a|, MaxRetries - used
  {
    if |a| == 0 {
      SilentAfter(frame, a, used);
    } else if a[0].Ok? {
      assert a[..0] == [];
      assert a[0].Ok? && AllRetrying(a[..0]) && used + Timeouts(a[..0]) < MaxRetries;
    } else {
      assert Retrying(a[0]);
      var q := a[1..];
      var used' := if a[0].Timeout? then used + 1 else used;
      assert used' < MaxRetries;
      assert Run(frame, a, used).reply == Run(frame, q, used').reply;
      AckedReachesOk(frame, q, used');
      var k :| 0 <= k < |q| && q[k].Ok? && AllRetrying(q[..k]) && used' + Timeouts(q[..k]) < MaxRetries;
      WitnessShift(a, k, used, used');
    }
  }

  lemma WitnessShift(a: seq<Attempt>, k: nat, used: nat, used': nat)
    requires |a| > 0 && Retrying(a[0]) && used' == (if a[0].Timeout? then used + 1 else used)
    requires k < |a| - 1 && a[1..][k].Ok? && AllRetrying(a[1..][..k]) && used' + Timeouts(a[1..][..k]) < MaxRetries
    ensures ReachesOk(a, used)
  {
    var q := a[1..];
    assert a[..k + 1] == [a[0]] + q[..k];
    TimeoutsCons(a[0], q[..k]);
    assert a[k + 1].Ok? && AllRetrying(a[..k + 1]) && used + Timeouts(a[..k + 1]) < MaxRetries;
  }

  lemma OkReachedIsAcked(frame: string, a: seq<Attempt>, used: nat, j: nat)
    requires j < |a| && a[j].Ok? && AllRetrying(a[..j]) && used + Timeouts(a[..j]) < MaxRetries
    ensures Run(frame, a, used).reply == Acked(Payload(a[j].section))
  {
    assert a == a[..j] + [a[j]] + a[j + 1..];
    DecidedBy(frame, a[..j], a[j], a[j + 1..], used);
  }

  /** The call succeeds exactly when some `Ok` outcome is reached before any write or
      wait failure and before the third timeout. */
  lemma AckedIff(frame: string, a: seq<Attempt>, used: nat)
    requires used < MaxRetries
    ensures Run(frame, a, used).reply.Acked? <==> ReachesOk(a, used)
  {
    if Run(frame, a, used).reply.Acked? {
      AckedReachesOk(frame, a, used);
    }
    if ReachesOk(a, used) {
      var j :| 0 <= j < |a| && a[j].Ok? && AllRetrying(a[..j]) && used + Timeouts(a[..j]) < MaxRetries;
      OkReachedIsAcked(frame, a, used, j);
    }
  }

  /** Three timeouts in a row: failure after exactly three writes. */
  lemma ThreeTimeouts(code: string, rest: seq<Attempt>)
    ensures Send(true, code, [Timeout, Timeout, Timeout] + rest)
         == Transaction(Repeat(Frame(code), 3), Failed(RetriesExhausted), rest)
  {
    var p := [Timeout, Timeout];
    assert Timeouts(p) == 2 by {
      assert p[..1] == [Timeout];
      assert [Timeout][..0] == [];
    }
    assert [Timeout, Timeout, Timeout] + rest == p + [Timeout] + rest;
    ExhaustedBy(Frame(code), p, rest, 0);
  }

  /** A device that stays silent makes the call fail after exactly three writes. */
  lemma SilentDevice(code: string)
    ensures Send(true, code, []) == Transaction(Repeat(Frame(code), 3), Failed(RetriesExhausted), [])
  {
    SilentAfter(Frame(code), [], 0);
  }

  function TimeoutRun(k: nat): (p: seq<Attempt>)
    ensures |p| == k && AllRetrying(p) && Timeouts(p) == k
  {
    if k == 0 then [] else
      var p := TimeoutRun(k - 1);
      TimeoutsSnoc(p, Timeout);
      p + [Timeout]
  }

  function ReadErrorRun(n: nat): (p: seq<Attempt>)
    ensures |p| == n && AllRetrying(p) && Timeouts(p) == 0
  {
    if n == 0 then [] else
      var p := ReadErrorRun(n - 1);
      TimeoutsSnoc(p, ReadErr);
      p + [ReadErr]
  }

  /** A device that answers the first write is done after that write. */
  lemma AnsweredAtOnce(code: string, section: string, rest: seq<Attempt>)
    ensures Send(true, code, [Ok(section)] + rest) == Transaction([Frame(code)], Acked(Payload(section)), rest)
  {
    assert ([Ok(section)] + rest)[1..] == rest;
  }

  /** Success on attempt k + 1 (k earlier timeouts, k < 3) is success, after k + 1 writes. */
  lemma SuccessOnAttempt(code: string, k: nat, section: string, rest: seq<Attempt>)
    requires k < MaxRetries
    ensures Send(true, code, TimeoutRun(k) + [Ok(section)] + rest)
         == Transaction(Repeat(Frame(code), k + 1), Acked(Payload(section)), rest)
  {
    DecidedBy(Frame(code), TimeoutRun(k), Ok(section), rest, 0);
  }

  /** A write or wait failure ends the call at once; later outcomes stay unconsumed. */
  lemma FailsAtOnce(code: string, k: nat, x: Attempt, rest: seq<Attempt>)
    requires k < MaxRetries
    requires x.WriteFail? || x.SelectErr?
    ensures var t := Send(true, code, TimeoutRun(k) + [x] + rest);
            t.reply.Failed? && t.rest == rest && |t.frames| == k + Written(x)
  {
    DecidedBy(Frame(code), TimeoutRun(k), x, rest, 0);
  }

  /** Read errors never spend an attempt: any number of them before three timeouts
      still leaves three timed-out attempts, one more write per read error. */
  lemma ReadErrorsNotCounted(code: string, n: nat, rest: seq<Attempt>)
    ensures Send(true, code, ReadErrorRun(n) + [Timeout, Timeout, Timeout] + rest)
         == Transaction(Repeat(Frame(code), n + 3), Failed(RetriesExhausted), rest)
  {
    var p := ReadErrorRun(n) + [Timeout, Timeout];
    TwoTimeoutsAfter(n);
    assert ReadErrorRun(n) + [Timeout, Timeout, Timeout] + rest == p + [Timeout] + rest;
    ExhaustedBy(Frame(code), p, rest, 0);
    assert Repeat(Frame(code), |p| + 1) == Repeat(Frame(code), n + 3);
  }

  /** Read errors followed by two timeouts: the two timeouts are all that count. */
  lemma TwoTimeoutsAfter(n: nat)
    ensures var p := ReadErrorRun(n) + [Timeout, Timeout];
            AllRetrying(p) && Timeouts(p) == 2 && |p| == n + 2
  {
    var r := ReadErrorRun(n);
    TimeoutsSnoc(r, Timeout);
    assert r + [Timeout] + [Timeout] == r + [Timeout, Timeout];
    TimeoutsSnoc(r + [Timeout], Timeout);
  }
}
