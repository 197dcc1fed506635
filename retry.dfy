/** `send_data_with_retry`: write the frame, read one reply with a 200 ms
    timeout, check it, and after a rejected reply wait 50, 100, 200, 400,
    then 800 ms before trying again, until five seconds have passed since
    the start.  The transport and the clock are scripted: attempt number `k`
    meets the device behaviour `script(k)`, and each write and read takes the
    time the script says. */
module Retry {
  import opened Types
  import opened Classifier

  /** The overall deadline, in milliseconds (`Duration::from_secs(5)`). */
  const Timeout: nat := 5000

  /** Size of the buffer each reply is read into. */
  const ResponseSize: nat := 32

  /** Largest pause between two attempts. */
  const MaxBackoff: nat := 800

  function Pow2(e: nat): (r: nat)
    ensures r >= 1
  {
    if e == 0 then 1 else 2 * Pow2(e - 1)
  }

  function Min(a: nat, b: nat): (m: nat)
    ensures m <= a && m <= b && (m == a || m == b)
  {
    if a < b then a else b
  }

  function Max(a: nat, b: nat): (m: nat)
    ensures m >= a && m >= b && (m == a || m == b)
  {
    if a < b then b else a
  }

  /** The pause after a rejected reply on attempt `attempt`:
      `50 * 2^min(attempt - 1, 4)` milliseconds. */
  function Backoff(attempt: nat): (ms: nat)
    requires attempt >= 1
    ensures 50 <= ms <= MaxBackoff
  {
    var e := Min(attempt - 1, 4);
    assert Pow2(e) <= 16 by {
      assert Pow2(1) == 2 && Pow2(2) == 4 && Pow2(3) == 8 && Pow2(4) == 16;
      assert e == 0 || e == 1 || e == 2 || e == 3 || e == 4;
    }
    50 * Pow2(e)
  }

  /** The pauses grow 50, 100, 200, 400, 800 and then stay at 800. */
  lemma {:induction false} BackoffSchedule()
    ensures Backoff(1) == 50 && Backoff(2) == 100 && Backoff(3) == 200
    ensures Backoff(4) == 400 && Backoff(5) == 800 && Backoff(6) == 800
  {
    assert Pow2(1) == 2 && Pow2(2) == 4 && Pow2(3) == 8 && Pow2(4) == 16;
  }

  /** Every pause is between 50 and 800 ms; each one doubles the one before
      until the cap, and from the fifth attempt on it is the cap. */
  lemma {:induction false} BackoffBounds(attempt: nat)
    requires attempt >= 1
    ensures 50 <= Backoff(attempt) <= MaxBackoff
    ensures attempt < 5 ==> Backoff(attempt + 1) == 2 * Backoff(attempt)
    ensures attempt >= 5 ==> Backoff(attempt) == MaxBackoff
  {
    BackoffSchedule();
    if attempt >= 5 {
      assert Min(attempt - 1, 4) == 4;
    }
  }

  /** What the transport does on a write. */
  datatype WriteResult = WriteOk(bytes: nat) | WriteErr(cause: string)

  /** What the transport does on a read: a report (empty when the read timed
      out) or an error. */
  datatype ReadResult = ReadOk(report: seq<uint8>) | ReadErr

  /** The device's behaviour on one attempt and the time each call takes. */
  datatype Event = Event(write: WriteResult, writeTime: nat, read: ReadResult, readTime: nat)

  /** The device's behaviour by attempt number. */
  type Script = nat -> Event

  /** Each attempt's write takes some time, so the clock always moves on. */
  ghost predicate Progressing(script: Script) {
    forall k: nat :: script(k).writeTime > 0
  }

  /** The number of bytes a read delivers into the 32-byte buffer; a read
      error counts as none. */
  function BytesRead(read: ReadResult): (n: nat)
    ensures n <= ResponseSize
    ensures read.ReadErr? ==> n == 0
  {
    match read
    case ReadOk(report) => Min(|report|, ResponseSize)
    case ReadErr => 0
  }

  /** The zeroed 32-byte buffer after the read wrote its bytes to the front. */
  function ResponseBuffer(read: ReadResult): (buffer: seq<uint8>)
    ensures |buffer| == ResponseSize
  {
    match read
    case ReadOk(report) => report[..BytesRead(read)] + Fill(0, ResponseSize - BytesRead(read))
    case ReadErr => Fill(0, ResponseSize)
  }

  /** The verdict on the reply to an attempt whose write went through. */
  function Accepts(read: ReadResult, sentPayload: seq<uint8>): (accepted: bool) {
    ProcessResponse(ResponseBuffer(read), BytesRead(read), sentPayload)
  }

  /** How an attempt ended: the write failed; or a reply of `bytesRead`
      bytes was rejected and the loop then paused `slept` ms; or it was
      accepted, the echo confirmed. */
  datatype Outcome = WriteFailed | Rejected(bytesRead: nat, slept: nat) | Confirmed(bytesRead: nat)

  /** One attempt: its number, the clock when it began, and how it ended. */
  datatype Attempt = Attempt(number: nat, start: nat, outcome: Outcome)

  /** The verdict of `send_data_with_retry`, the attempts it made (the
      per-attempt lines it prints), and the clock when it returned. */
  datatype Report = Report(success: bool, attempts: seq<Attempt>, elapsed: nat)

  /** The time one attempt took: the write, then the read and the pause
      unless the write failed. */
  function Duration(script: Script, a: Attempt): (d: nat)
    ensures d >= script(a.number).writeTime
  {
    var e := script(a.number);
    match a.outcome
    case WriteFailed => e.writeTime
    case Rejected(_, slept) => e.writeTime + e.readTime + slept
    case Confirmed(_) => e.writeTime + e.readTime
  }

  /** The attempt the loop makes at clock `now` when `log` has been made. */
  function NextAttempt(script: Script, sentPayload: seq<uint8>, now: nat, log: seq<Attempt>): (a: Attempt)
    ensures a.number == |log| + 1 && a.start == now
    ensures FollowsScript(script, sentPayload, a)
  {
    var number := |log| + 1;
    var e := script(number);
    var afterRead := now + e.writeTime + e.readTime;
    var outcome :=
      if e.write.WriteErr? then WriteFailed
      else if Accepts(e.read, sentPayload) then Confirmed(BytesRead(e.read))
      else Rejected(BytesRead(e.read), if afterRead < Timeout then Backoff(number) else 0);
    Attempt(number, now, outcome)
  }

  /** The loop from clock `now`, with the attempts `log` already made: until
      the deadline, make the next attempt and stop when it was confirmed. */
  function RunFrom(script: Script, sentPayload: seq<uint8>, now: nat, log: seq<Attempt>): (r: Report)
    requires Progressing(script)
    ensures |log| <= |r.attempts|
    ensures now < Timeout ==> |log| < |r.attempts|
    ensures !r.success ==> r.elapsed >= Timeout
    decreases Timeout - now
  {
    if now >= Timeout then Report(false, log, now)
    else
      var a := NextAttempt(script, sentPayload, now, log);
      if a.outcome.Confirmed? then Report(true, log + [a], End(script, a))
      else
        assert script(a.number).writeTime > 0;
        RunFrom(script, sentPayload, End(script, a), log + [a])
  }

  /** The whole loop, started with the clock at zero. */
  function Run(script: Script, sentPayload: seq<uint8>): (r: Report)
    requires Progressing(script)
    ensures |r.attempts| >= 1
    ensures !r.success ==> r.elapsed >= Timeout
  {
    RunFrom(script, sentPayload, 0, [])
  }

  /** The clock when attempt `a` was over. */
  function End(script: Script, a: Attempt): (t: nat)
    ensures t >= a.start + script(a.number).writeTime
  {
    a.start + Duration(script, a)
  }

  /** Attempt `a` ended the way the device and the classifier decided: a
      failed write is the script's write error; otherwise the reply is the
      script's read, a read error counting as no bytes, and the verdict is
      `process_response`'s; a rejected reply is followed by the backoff for
      the attempt's number when the deadline had not passed yet, and by no
      pause when it had. */
  predicate FollowsScript(script: Script, sentPayload: seq<uint8>, a: Attempt) {
    var e := script(a.number);
    a.number >= 1 &&
    match a.outcome
    case WriteFailed => e.write.WriteErr?
    case Rejected(n, slept) =>
      e.write.WriteOk? && n == BytesRead(e.read) && !Accepts(e.read, sentPayload)
      && slept == (if a.start + e.writeTime + e.readTime < Timeout then Backoff(a.number) else 0)
    case Confirmed(n) =>
      e.write.WriteOk? && n == BytesRead(e.read) && Accepts(e.read, sentPayload)
  }

  /** The attempts made so far, ending at clock `clock`: numbered 1, 2, 3, ...,
      the first starting at zero and each of the others when the previous one
      was over, each one starting before the deadline and following the
      script, and none but the last confirmed. */
  ghost predicate WellFormed(script: Script, sentPayload: seq<uint8>, log: seq<Attempt>, clock: nat) {
    (forall i :: 0 <= i < |log| ==>
       log[i].number == i + 1 && log[i].start < Timeout && FollowsScript(script, sentPayload, log[i]))
    && (forall i :: 0 <= i < |log| - 1 ==>
          log[i + 1].start == End(script, log[i]) && !log[i].outcome.Confirmed?)
    && (|log| == 0 ==> clock == 0)
    && (|log| > 0 ==> log[0].start == 0 && clock == End(script, log[|log| - 1]))
  }

  /** One more attempt, made when the clock says `now`, keeps the log well
      formed. */
  lemma {:induction false} ExtendWellFormed(script: Script, sentPayload: seq<uint8>, log: seq<Attempt>, now: nat, a: Attempt)
    requires WellFormed(script, sentPayload, log, now)
    requires |log| > 0 ==> !log[|log| - 1].outcome.Confirmed?
    requires a.number == |log| + 1 && a.start == now && now < Timeout
    requires FollowsScript(script, sentPayload, a)
    ensures WellFormed(script, sentPayload, log + [a], End(script, a))
  {
    var log' := log + [a];
    forall i | 0 <= i < |log'|
      ensures log'[i].number == i + 1 && log'[i].start < Timeout && FollowsScript(script, sentPayload, log'[i])
    {
      if i < |log| { assert log'[i] == log[i]; }
    }
    forall i | 0 <= i < |log'| - 1
      ensures log'[i + 1].start == End(script, log'[i]) && !log'[i].outcome.Confirmed?
    {
      assert log'[i] == log[i];
      if i + 1 < |log| { assert log'[i + 1] == log[i + 1]; }
    }
  }

  /** What running the loop on from `log` at clock `now` may produce: a
      well-formed log that extends `log` (by at least one attempt when the
      deadline had not passed), success exactly when the last attempt was
      confirmed, and on failure a clock at or past the deadline. */
  ghost predicate Continues(script: Script, sentPayload: seq<uint8>, log: seq<Attempt>, now: nat, r: Report) {
    WellFormed(script, sentPayload, r.attempts, r.elapsed)
    && |log| <= |r.attempts| && r.attempts[..|log|] == log
    && (now < Timeout ==> |log| < |r.attempts|)
    && (r.success <==> |r.attempts| > 0 && r.attempts[|r.attempts| - 1].outcome.Confirmed?)
    && (!r.success ==> r.elapsed >= Timeout)
  }

  /** A run that continues a log extended by one attempt continues the
      original log too. */
  lemma {:induction false} ContinuesShorter(script: Script, sentPayload: seq<uint8>, log: seq<Attempt>, now: nat,
                                            a: Attempt, later: nat, r: Report)
    requires Continues(script, sentPayload, log + [a], later, r)
    ensures Continues(script, sentPayload, log, now, r)
  {
    PrefixOfPrefix(log, log + [a], r.attempts);
  }

  /** Before the deadline the loop makes the next attempt and goes on from
      the clock at which that attempt is over, unless it was confirmed. */
  lemma {:induction false} RunFromStep(script: Script, sentPayload: seq<uint8>, now: nat, log: seq<Attempt>)
    requires Progressing(script) && now < Timeout
    ensures var a := NextAttempt(script, sentPayload, now, log);
            FollowsScript(script, sentPayload, a)
            && End(script, a) > now
            && RunFrom(script, sentPayload, now, log)
               == if a.outcome.Confirmed? then Report(true, log + [a], End(script, a))
                  else RunFrom(script, sentPayload, End(script, a), log + [a])
  {
  }

  /** Running the loop on from a well-formed log continues it. */
  lemma {:induction false} RunFromWellFormed(script: Script, sentPayload: seq<uint8>, now: nat, log: seq<Attempt>)
    requires Progressing(script)
    requires WellFormed(script, sentPayload, log, now)
    requires |log| > 0 ==> !log[|log| - 1].outcome.Confirmed?
    ensures Continues(script, sentPayload, log, now, RunFrom(script, sentPayload, now, log))
    decreases Timeout - now
  {
    var r := RunFrom(script, sentPayload, now, log);
    if now < Timeout {
      var a := NextAttempt(script, sentPayload, now, log);
      RunFromStep(script, sentPayload, now, log);
      ExtendWellFormed(script, sentPayload, log, now, a);
      if a.outcome.Confirmed? {
        assert r.attempts[..|log|] == log;
      } else {
        RunFromWellFormed(script, sentPayload, End(script, a), log + [a]);
        ContinuesShorter(script, sentPayload, log, now, a, End(script, a), r);
      }
    } else {
      assert r.attempts[..|log|] == log;
    }
  }

  lemma {:induction false} PrefixOfPrefix(a: seq<Attempt>, b: seq<Attempt>, c: seq<Attempt>)
    requires |a| <= |b| <= |c| && b[..|a|] == a && c[..|b|] == b
    ensures c[..|a|] == a
  {
    assert c[..|a|] == c[..|b|][..|a|];
  }

  /** The loop's promises: at least one attempt, numbered 1, 2, 3, ... with
      each one begun before the deadline, the first at zero and each later
      one when the previous one was over; success exactly when some attempt
      was confirmed, which is then the last one; and failure only once the
      deadline has passed. */
  lemma {:induction false} RunWellFormed(script: Script, sentPayload: seq<uint8>)
    requires Progressing(script)
    ensures var r := Run(script, sentPayload);
            WellFormed(script, sentPayload, r.attempts, r.elapsed)
            && |r.attempts| >= 1
            && (r.success <==> exists i :: 0 <= i < |r.attempts| && r.attempts[i].outcome.Confirmed?)
            && (r.success ==> r.attempts[|r.attempts| - 1].outcome.Confirmed?)
            && (!r.success ==> r.elapsed >= Timeout)
  {
    RunFromWellFormed(script, sentPayload, 0, []);
  }

  /** When attempt `i` (counting from zero) was over: where the next one
      starts, or for the last one the clock at return. */
  function Resumed(r: Report, i: nat): (t: nat)
    requires i < |r.attempts|
  {
    if i + 1 < |r.attempts| then r.attempts[i + 1].start else r.elapsed
  }

  /** A write error ends the attempt at once: the next one begins right after
      the failed write, with no read and no pause in between. */
  lemma {:induction false} WriteErrorSkipsReadAndPause(script: Script, sentPayload: seq<uint8>, i: nat)
    requires Progressing(script)
    requires i < |Run(script, sentPayload).attempts| && script(i + 1).write.WriteErr?
    ensures var r := Run(script, sentPayload);
            r.attempts[i].outcome == WriteFailed
            && Resumed(r, i) == r.attempts[i].start + script(i + 1).writeTime
  {
    RunWellFormed(script, sentPayload);
  }

  /** A read error is treated as a reply of no bytes, which is rejected. */
  lemma {:induction false} ReadErrorIsNoReply(script: Script, sentPayload: seq<uint8>, i: nat)
    requires Progressing(script)
    requires i < |Run(script, sentPayload).attempts|
    requires script(i + 1).write.WriteOk? && script(i + 1).read.ReadErr?
    ensures Run(script, sentPayload).attempts[i].outcome.Rejected?
    ensures Run(script, sentPayload).attempts[i].outcome.bytesRead == 0
  {
    RunWellFormed(script, sentPayload);
    var e := script(i + 1);
    assert !ProcessResponse(ResponseBuffer(e.read), 0, sentPayload);
  }

  /** After a rejected reply the loop pauses only if the deadline has not
      passed yet, and then for the capped exponential backoff of that
      attempt; the next attempt begins when the pause is over. */
  lemma {:induction false} PauseOnlyBeforeDeadline(script: Script, sentPayload: seq<uint8>, i: nat)
    requires Progressing(script)
    requires i < |Run(script, sentPayload).attempts| && Run(script, sentPayload).attempts[i].outcome.Rejected?
    ensures var r := Run(script, sentPayload);
            var a := r.attempts[i];
            var e := script(i + 1);
            (a.outcome.slept > 0 <==> a.start + e.writeTime + e.readTime < Timeout)
            && (a.outcome.slept > 0 ==> a.outcome.slept == Backoff(i + 1) <= MaxBackoff)
            && Resumed(r, i) == a.start + e.writeTime + e.readTime + a.outcome.slept
  {
    RunWellFormed(script, sentPayload);
    BackoffBounds(i + 1);
  }

  /** An attempt whose write went through is confirmed exactly when
      `process_response` accepts the reply read into the zeroed buffer. */
  lemma {:induction false} VerdictIsProcessResponse(script: Script, sentPayload: seq<uint8>, i: nat)
    requires Progressing(script)
    requires i < |Run(script, sentPayload).attempts| && script(i + 1).write.WriteOk?
    ensures var e := script(i + 1);
            var outcome := Run(script, sentPayload).attempts[i].outcome;
            !outcome.WriteFailed?
            && outcome.bytesRead == BytesRead(e.read)
            && (outcome.Confirmed? <==> ProcessResponse(ResponseBuffer(e.read), BytesRead(e.read), sentPayload))
  {
    RunWellFormed(script, sentPayload);
  }

  /** A failing run returns at or after the deadline.  It can overrun it: by
      the last attempt's write and read when they end past the deadline, or
      by a pause of at most 800 ms when they end just before it. */
  lemma {:induction false} FailureOverrun(script: Script, sentPayload: seq<uint8>)
    requires Progressing(script)
    requires !Run(script, sentPayload).success
    ensures var r := Run(script, sentPayload);
            var e := script(|r.attempts|);
            Timeout <= r.elapsed < Timeout + Max(e.writeTime + e.readTime, MaxBackoff)
  {
    RunWellFormed(script, sentPayload);
    var r := Run(script, sentPayload);
    var k := |r.attempts| - 1;
    var a := r.attempts[k];
    assert a.number == k + 1 && a.start < Timeout && r.elapsed == End(script, a);
    assert FollowsScript(script, sentPayload, a);
    assert !a.outcome.Confirmed?;
    BackoffBounds(k + 1);
  }

  /** A device that refuses four writes and then takes 4795 ms to accept the
      fifth, whose reply then times out after 200 ms. */
  function LateDevice(): (script: Script) {
    k => if k < 5 then Event(WriteErr("busy"), 1, ReadErr, 0)
         else Event(WriteOk(ResponseSize), 4795, ReadOk([]), 200)
  }

  /** The first `n` attempts against `LateDevice`: refused writes of 1 ms
      each. */
  function RefusedWrites(n: nat): (log: seq<Attempt>)
    ensures |log| == n
  {
    if n == 0 then [] else RefusedWrites(n - 1) + [Attempt(n, n - 1, WriteFailed)]
  }

  /** Each of the first four attempts against `LateDevice` is a refused
      write, after which the next attempt follows at once. */
  lemma {:induction false} LateDeviceRefuses(payload: seq<uint8>, k: nat)
    requires k < 4
    ensures Progressing(LateDevice())
    ensures RunFrom(LateDevice(), payload, 0, []) == RunFrom(LateDevice(), payload, k + 1, RefusedWrites(k + 1))
  {
    var script := LateDevice();
    if k > 0 {
      LateDeviceRefuses(payload, k - 1);
    }
    RunFromStep(script, payload, k, RefusedWrites(k));
    assert NextAttempt(script, payload, k, RefusedWrites(k)) == Attempt(k + 1, k, WriteFailed);
  }

  /** A failing run can return well over one read timeout past the deadline:
      the fifth attempt's read ends 1 ms before the deadline, so the loop
      still pauses 800 ms and returns at 5799 ms. */
  lemma {:induction false} LateDeviceOverrun(payload: seq<uint8>)
    ensures Progressing(LateDevice())
    ensures var r := Run(LateDevice(), payload);
            !r.success && |r.attempts| == 5 && r.elapsed == Timeout + 799
  {
    var script := LateDevice();
    LateDeviceRefuses(payload, 3);
    BackoffSchedule();
    var log := RefusedWrites(4);
    var a5 := Attempt(5, 4, Rejected(0, 800));
    RunFromStep(script, payload, 4, log);
    assert !Accepts(ReadOk([]), payload);
    assert NextAttempt(script, payload, 4, log) == a5;
    assert RunFrom(script, payload, 5799, log + [a5]) == Report(false, log + [a5], 5799);
  }

  /** A device that never confirms the echo makes the loop fail at the
      deadline. */
  lemma {:induction false} NoEchoFails(script: Script, sentPayload: seq<uint8>)
    requires Progressing(script)
    requires forall k: nat :: script(k).write.WriteErr? || !Accepts(script(k).read, sentPayload)
    ensures !Run(script, sentPayload).success && Run(script, sentPayload).elapsed >= Timeout
  {
    RunWellFormed(script, sentPayload);
    var r := Run(script, sentPayload);
    var k := |r.attempts| - 1;
    assert FollowsScript(script, sentPayload, r.attempts[k]);
  }

  /** A device that takes every write and stays silent (each read timing out
      after 200 ms) on the attempts before `firstEcho`, then answers the
      success marker followed by `payload`; each write takes 1 ms and each
      answered read 1 ms. */
  function EchoFrom(payload: seq<uint8>, firstEcho: nat): (script: Script) {
    k => if k < firstEcho then Event(WriteOk(ResponseSize), 1, ReadOk([]), 200)
         else Event(WriteOk(ResponseSize), 1, ReadOk([SuccessMarker] + payload), 1)
  }

  /** The echo of a full 31-byte payload is accepted and silence is not. */
  lemma {:induction false} EchoVerdicts(payload: seq<uint8>)
    requires |payload| == ResponseSize - 1
    ensures Accepts(ReadOk([SuccessMarker] + payload), payload)
    ensures !Accepts(ReadOk([]), payload)
  {
    var echo := [SuccessMarker] + payload;
    assert ResponseBuffer(ReadOk(echo)) == echo + [];
    EchoAccepted(payload, []);
  }

  /** A device that echoes at once: one attempt, confirmed after the write
      and the read. */
  lemma {:induction false} EchoOnFirstAttempt(payload: seq<uint8>)
    requires |payload| == ResponseSize - 1
    ensures Progressing(EchoFrom(payload, 1))
    ensures Run(EchoFrom(payload, 1), payload) == Report(true, [Attempt(1, 0, Confirmed(ResponseSize))], 2)
  {
    var script := EchoFrom(payload, 1);
    EchoVerdicts(payload);
    RunFromStep(script, payload, 0, []);
  }

  /** A device silent twice and then echoing: three attempts, with pauses of
      50 and then 100 ms after the two silent ones. */
  lemma {:induction false} EchoOnThirdAttempt(payload: seq<uint8>)
    requires |payload| == ResponseSize - 1
    ensures Progressing(EchoFrom(payload, 3))
    ensures Run(EchoFrom(payload, 3), payload)
            == Report(true, [Attempt(1, 0, Rejected(0, 50)), Attempt(2, 251, Rejected(0, 100)),
                             Attempt(3, 552, Confirmed(ResponseSize))], 554)
  {
    var script := EchoFrom(payload, 3);
    EchoVerdicts(payload);
    BackoffSchedule();
    var a1 := Attempt(1, 0, Rejected(0, 50));
    var a2 := Attempt(2, 251, Rejected(0, 100));
    var a3 := Attempt(3, 552, Confirmed(ResponseSize));
    RunFromStep(script, payload, 0, []);
    assert NextAttempt(script, payload, 0, []) == a1;
    RunFromStep(script, payload, 251, [a1]);
    assert NextAttempt(script, payload, 251, [a1]) == a2;
    RunFromStep(script, payload, 552, [a1, a2]);
    assert NextAttempt(script, payload, 552, [a1, a2]) == a3;
    assert [a1] + [a2] == [a1, a2] && [a1, a2] + [a3] == [a1, a2, a3];
  }

  /** `read_timeout` into the caller's zeroed buffer: the report's first
      bytes, as many as fit, land at the front; a read error writes nothing
      and counts as no bytes. */
  method ReadTimeout(read: ReadResult, buffer: array<uint8>) returns (n: nat)
    requires buffer.Length == ResponseSize
    requires forall i :: 0 <= i < buffer.Length ==> buffer[i] == 0
    modifies buffer
    ensures n == BytesRead(read)
    ensures buffer[..] == ResponseBuffer(read)
  {
    n := 0;
    if read.ReadOk? {
      var count := BytesRead(read);
      while n < count
        invariant 0 <= n <= count
        invariant forall i :: 0 <= i < n ==> buffer[i] == read.report[i]
        invariant forall i :: n <= i < buffer.Length ==> buffer[i] == 0
      {
        buffer[n] := read.report[n];
        n := n + 1;
      }
    }
    assert buffer[..] == ResponseBuffer(read);
  }

  /** `send_data_with_retry` on the frame `buffer`: the reply must echo
      `buffer[1..]`.  It returns the verdict, the attempts it made and the
      clock when it returned, which are those of `Run`. */
  method SendDataWithRetry(script: Script, buffer: seq<uint8>) returns (success: bool, attempts: seq<Attempt>, elapsed: nat)
    requires Progressing(script) && |buffer| >= 1
    ensures Report(success, attempts, elapsed) == Run(script, buffer[1..])
    ensures success <==> exists i :: 0 <= i < |attempts| && attempts[i].outcome.Confirmed?
    ensures !success ==> elapsed >= Timeout
  {
    var now := 0;
    var attempt := 0;
    var sentPayload := buffer[1..];
    attempts := [];
    while now < Timeout
      invariant attempt == |attempts|
      invariant RunFrom(script, sentPayload, now, attempts) == Run(script, sentPayload)
      decreases Timeout - now
    {
      ghost var next := NextAttempt(script, sentPayload, now, attempts);
      RunFromStep(script, sentPayload, now, attempts);
      attempt := attempt + 1;
      var e := script(attempt);
      var start := now;
      now := now + e.writeTime;
      if e.write.WriteErr? {
        assert Attempt(attempt, start, WriteFailed) == next && now == End(script, next);
        attempts := attempts + [Attempt(attempt, start, WriteFailed)];
        continue;
      }
      var responseBuffer := new uint8[ResponseSize](_ => 0);
      var bytesRead := ReadTimeout(e.read, responseBuffer);
      now := now + e.readTime;
      assert responseBuffer[..] == ResponseBuffer(e.read);
      var accepted := ProcessResponse(responseBuffer[..], bytesRead, sentPayload);
      assert accepted == Accepts(e.read, sentPayload);
      if accepted {
        assert Attempt(attempt, start, Confirmed(bytesRead)) == next && now == End(script, next);
        attempts := attempts + [Attempt(attempt, start, Confirmed(bytesRead))];
        success, elapsed := true, now;
        RunWellFormed(script, sentPayload);
        return;
      }
      var slept := 0;
      if now < Timeout {
        slept := Backoff(attempt);
        now := now + slept;
      }
      assert Attempt(attempt, start, Rejected(bytesRead, slept)) == next && now == End(script, next);
      attempts := attempts + [Attempt(attempt, start, Rejected(bytesRead, slept))];
    }
    success, elapsed := false, now;
    RunWellFormed(script, sentPayload);
  }
}
