/**
  The token bucket's arithmetic, and the copying loop that pays for every byte with a token.
  The limits cps and burst are at least 0; the module that locks the bucket is BucketLocks.
 */
module TokenBucket {
  import opened Counting
  import opened Wrappers

  const EINVAL := 22

  // ----- One bucket -----

  class Bucket {
    const cps: int
    const burst: int
    var token: int

    constructor (cps: int, burst: int)
      ensures this.cps == cps && this.burst == burst && token == 0
    {
      this.cps, this.burst, token := cps, burst, 0;
    }

    /** What the alarm thread does to a bucket once a second. */
    method Refill()
      modifies this`token
      ensures token == Refilled(old(token), cps, burst)
    {
      token := token + cps;
      if token > burst {
        token := burst;
      }
    }

    /** The part of a fetch after its wait for tokens. */
    method Fetch(size: int) returns (n: int)
      requires size >= 0 ==> token > 0
      modifies this`token
      ensures n == FetchResult(old(token), size)
      ensures token == old(token) - if size < 0 then 0 else n
    {
      if size < 0 {
        return -EINVAL;
      }
      n := Min(token, size);
      token := token - n;
    }

    method Return(size: int) returns (n: int)
      modifies this`token
      ensures n == if size <= 0 then -EINVAL else size
      ensures token == if size <= 0 then old(token) else Refilled(old(token), size, burst)
    {
      if size <= 0 {
        return -EINVAL;
      }
      token := token + size;
      if token > burst {
        token := burst;
      }
      n := size;
    }
  }

  function Refilled(token: int, amount: int, burst: int): int {
    Min(token + amount, burst)
  }

  function FetchResult(token: int, size: int): int {
    if size < 0 then -EINVAL else Min(token, size)
  }

  // ----- Any run of calls and refills -----

  datatype Op = Refill | Fetch(size: int) | Return(size: int)

  /** A fetch of tokens waits until there are some. */
  predicate Enabled(token: int, op: Op) {
    op.Fetch? && op.size >= 0 ==> token > 0
  }

  function After(token: int, op: Op, cps: int, burst: int): int {
    match op
    case Refill => Refilled(token, cps, burst)
    case Fetch(size) => if size < 0 then token else token - FetchResult(token, size)
    case Return(size) => if size <= 0 then token else Refilled(token, size, burst)
  }

  /** The tokens left by a run; None if some fetch in it could not go on. */
  function Run(token: int, ops: seq<Op>, cps: int, burst: int): Option<int>
    decreases |ops|
  {
    if ops == [] then Some(token)
    else if !Enabled(token, ops[0]) then None
    else Run(After(token, ops[0], cps, burst), ops[1..], cps, burst)
  }

  function Refills(ops: seq<Op>): nat {
    if ops == [] then 0 else (if ops[0].Refill? then 1 else 0) + Refills(ops[1..])
  }

  /** Tokens handed out by the successful fetches of the run. */
  function Fetched(token: int, ops: seq<Op>, cps: int, burst: int): int
    decreases |ops|
  {
    if ops == [] then 0
    else
      (if ops[0].Fetch? && ops[0].size >= 0 then FetchResult(token, ops[0].size) else 0)
      + Fetched(After(token, ops[0], cps, burst), ops[1..], cps, burst)
  }

  function Returned(ops: seq<Op>): int {
    if ops == [] then 0
    else (if ops[0].Return? && ops[0].size > 0 then ops[0].size else 0) + Returned(ops[1..])
  }

  /** Over any window of any run the tokens stay within the burst, and what is handed out beyond what is
      given back never exceeds the tokens there at the start and those refilled since. */
  lemma {:induction false} WindowBound(token: int, ops: seq<Op>, cps: int, burst: int)
    requires cps >= 0 && 0 <= token <= burst && Run(token, ops, cps, burst).Some?
    ensures var end := Run(token, ops, cps, burst).value;
      && 0 <= end <= burst
      && Fetched(token, ops, cps, burst) - Returned(ops) + end <= token + cps * Refills(ops)
    decreases |ops|
  {
    if ops != [] {
      var token' := After(token, ops[0], cps, burst);
      WindowBound(token', ops[1..], cps, burst);
      MulOneMore(cps, Refills(ops[1..]));
    } else {
      assert cps * Refills(ops) == 0;
    }
  }

  /** What an operation would add to the bucket if it were large enough. */
  function Poured(op: Op, cps: int): int {
    match op
    case Refill => cps
    case Fetch(_) => 0
    case Return(size) => if size <= 0 then 0 else size
  }

  /** What of that runs over. */
  function Spilled(token: int, op: Op, cps: int, burst: int): int {
    if token + Poured(op, cps) > burst then token + Poured(op, cps) - burst else 0
  }

  function AllSpilled(token: int, ops: seq<Op>, cps: int, burst: int): int
    decreases |ops|
  {
    if ops == [] then 0
    else Spilled(token, ops[0], cps, burst) + AllSpilled(After(token, ops[0], cps, burst), ops[1..], cps, burst)
  }

  /** A token lost runs over a full bucket, and a fetch takes all it asks for or all there is. */
  lemma OpExact(token: int, op: Op, cps: int, burst: int)
    requires cps >= 0 && 0 <= token <= burst && Enabled(token, op)
    ensures var r, lost := After(token, op, cps, burst), Spilled(token, op, cps, burst);
      && 0 <= lost <= Poured(op, cps) && (lost > 0 ==> r == burst)
      && if op.Fetch? && op.size >= 0 then 0 <= token - r <= op.size && (token - r == op.size || r == 0)
         else r == token + Poured(op, cps) - lost
  {
  }

  /** Over any window the account balances: tokens at the start, poured in, taken out, left and run over. */
  lemma {:induction false} WindowExact(token: int, ops: seq<Op>, cps: int, burst: int)
    requires cps >= 0 && 0 <= token <= burst && Run(token, ops, cps, burst).Some?
    ensures token + cps * Refills(ops) + Returned(ops)
         == Fetched(token, ops, cps, burst) + Run(token, ops, cps, burst).value + AllSpilled(token, ops, cps, burst)
    decreases |ops|
  {
    if ops != [] {
      var token' := After(token, ops[0], cps, burst);
      OpExact(token, ops[0], cps, burst);
      WindowExact(token', ops[1..], cps, burst);
      MulOneMore(cps, Refills(ops[1..]));
    } else {
      assert cps * Refills(ops) == 0;
    }
  }

  // ----- The copying loop -----

  type Bytes = seq<int>

  /** Where the loop is: before a fetch; holding size tokens before a read; with data read and tokens to give
      back; with left bytes of the buffer to write; ended. */
  datatype Phase =
    | Fetching
    | Reading(size: int)
    | Returning(back: int, data: Bytes)
    | Writing(data: Bytes, left: int)
    | Ended

  datatype Copy = Copy(token: int, phase: Phase, out: Bytes, ticks: nat, errors: nat)

  /** A refill may come between any two calls. Calls interrupted by a signal are simply made again. */
  datatype Event =
    | Tick
    | Take
    | ReadInterrupted | ReadFailed | ReadGot(data: Bytes)
    | GiveBack
    | WriteInterrupted | WriteFailed | Wrote(n: int)

  /** The next state; None when the event cannot happen there. */
  function Next(c: Copy, e: Event, cps: int, burst: int, bufsize: int): Option<Copy> {
    match (e, c.phase)
    case (Tick, _) => Some(c.(token := After(c.token, Refill, cps, burst), ticks := c.ticks + 1))
    case (Take, Fetching) =>
      if !Enabled(c.token, Fetch(bufsize)) then None
      else Some(c.(token := After(c.token, Fetch(bufsize), cps, burst),
                   phase := Reading(FetchResult(c.token, bufsize))))
    case (ReadInterrupted, Reading(_)) => Some(c)
    // A failed read leaves len at -1: the loop gives back size + 1 tokens and goes on.
    case (ReadFailed, Reading(size)) => Some(c.(phase := Returning(size + 1, []), errors := c.errors + 1))
    case (ReadGot(data), Reading(size)) =>
      if |data| > size then None
      else if data == [] then Some(c.(phase := Ended))
      else if size - |data| > 0 then Some(c.(phase := Returning(size - |data|, data)))
      else Some(c.(phase := Writing(data, |data|)))
    case (GiveBack, Returning(back, data)) =>
      Some(c.(token := After(c.token, Return(back), cps, burst),
              phase := if data == [] then Fetching else Writing(data, |data|)))
    case (WriteInterrupted, Writing(_, _)) => Some(c)
    case (WriteFailed, Writing(_, _)) => Some(c.(phase := Ended))
    // Every write starts at the front of the buffer again.
    case (Wrote(n), Writing(data, left)) =>
      if !(0 <= n <= left <= |data|) then None
      else Some(c.(out := c.out + data[..n], phase := if left - n > 0 then Writing(data, left - n) else Fetching))
    case _ => None
  }

  function RunCopy(c: Copy, es: seq<Event>, cps: int, burst: int, bufsize: int): Option<Copy>
    decreases |es|
  {
    if es == [] then Some(c)
    else
      match Next(c, es[0], cps, burst, bufsize)
      case None => None
      case Some(c') => RunCopy(c', es[1..], cps, burst, bufsize)
  }

  /** What an event does to the bucket. */
  function OpsOf(c: Copy, e: Event, bufsize: int): seq<Op> {
    match (e, c.phase)
    case (Tick, _) => [Refill]
    case (Take, _) => [Fetch(bufsize)]
    case (GiveBack, Returning(back, _)) => [Return(back)]
    case _ => []
  }

  function OpsOfRun(c: Copy, es: seq<Event>, cps: int, burst: int, bufsize: int): seq<Op>
    decreases |es|
  {
    if es == [] then []
    else
      match Next(c, es[0], cps, burst, bufsize)
      case None => []
      case Some(c') => OpsOf(c, es[0], bufsize) + OpsOfRun(c', es[1..], cps, burst, bufsize)
  }

  /** What the loop holds comes from fetches that succeeded, and what it gives back is never refused. */
  predicate Sound(p: Phase) {
    && (p.Reading? ==> p.size >= 0)
    && (p.Returning? ==> p.back > 0)
  }

  /** The run of the loop is, for the bucket, a run of refills, fetches of a whole buffer and returns that are
      never refused, and the tokens it leaves are those of that run. */
  lemma {:induction false} CopyIsTokenRun(c: Copy, es: seq<Event>, cps: int, burst: int, bufsize: int)
    requires cps >= 0 && burst >= 0 && bufsize >= 0 && c.token >= 0 && Sound(c.phase)
    requires RunCopy(c, es, cps, burst, bufsize).Some?
    ensures var end := RunCopy(c, es, cps, burst, bufsize).value; var ops := OpsOfRun(c, es, cps, burst, bufsize);
      && Run(c.token, ops, cps, burst) == Some(end.token) && Sound(end.phase)
      && forall op :: op in ops ==> op == Refill || op == Fetch(bufsize) || (op.Return? && op.size > 0)
    decreases |es|
  {
    if es != [] {
      var c' := Next(c, es[0], cps, burst, bufsize).value;
      CopyIsTokenRun(c', es[1..], cps, burst, bufsize);
      var rest := OpsOfRun(c', es[1..], cps, burst, bufsize);
      if OpsOf(c, es[0], bufsize) == [] {
        assert [] + rest == rest;
      } else {
        var op := OpsOf(c, es[0], bufsize)[0];
        assert ([op] + rest)[0] == op && ([op] + rest)[1..] == rest;
      }
    }
  }

  /** Tokens the loop holds, counting a byte to be written as one. */
  function Held(p: Phase): int {
    match p
    case Reading(size) => size
    case Returning(back, data) => back + |data|
    case Writing(_, left) => left
    case _ => 0
  }

  ghost predicate Paid(c: Copy, cps: int) {
    && c.token >= 0 && Held(c.phase) >= 0 && (c.phase.Returning? ==> c.phase.back >= 0)
    && c.token + Held(c.phase) + |c.out| <= cps * c.ticks + c.errors
  }

  lemma {:induction false} RunCopyPaid(c: Copy, es: seq<Event>, cps: int, burst: int, bufsize: int)
    requires cps >= 0 && burst >= 0 && bufsize >= 0 && Paid(c, cps)
    ensures RunCopy(c, es, cps, burst, bufsize).Some? ==> Paid(RunCopy(c, es, cps, burst, bufsize).value, cps)
    decreases |es|
  {
    if es != [] && Next(c, es[0], cps, burst, bufsize).Some? {
      MulOneMore(cps, c.ticks);
      RunCopyPaid(Next(c, es[0], cps, burst, bufsize).value, es[1..], cps, burst, bufsize);
    }
  }

  lemma {:induction false} SpilledAppend(token: int, a: seq<Op>, b: seq<Op>, cps: int, burst: int)
    requires Run(token, a, cps, burst).Some?
    ensures AllSpilled(token, a + b, cps, burst)
         == AllSpilled(token, a, cps, burst) + AllSpilled(Run(token, a, cps, burst).value, b, cps, burst)
    decreases |a|
  {
    if a == [] {
      assert a + b == b;
    } else {
      assert (a + b)[1..] == a[1..] + b;
      SpilledAppend(After(token, a[0], cps, burst), a[1..], b, cps, burst);
    }
  }

  /** What is in the bucket, held by the loop, or written. */
  function Account(c: Copy): int {
    c.token + Held(c.phase) + |c.out|
  }

  /** One step of a loop that goes on: the account changes by what comes in and what runs over, and by nothing else. */
  lemma StepExact(c: Copy, e: Event, cps: int, burst: int, bufsize: int)
    requires cps >= 0 && 0 <= c.token <= burst && bufsize >= 0 && Sound(c.phase) && !c.phase.Ended?
    requires var r := Next(c, e, cps, burst, bufsize); r.Some? && !r.value.phase.Ended?
    ensures var r, ops := Next(c, e, cps, burst, bufsize).value, OpsOf(c, e, bufsize);
      && 0 <= r.token <= burst && Sound(r.phase) && Run(c.token, ops, cps, burst) == Some(r.token)
      && Account(r) + AllSpilled(c.token, ops, cps, burst) + cps * c.ticks + c.errors
           == Account(c) + cps * r.ticks + r.errors
  {
    var ops := OpsOf(c, e, bufsize);
    MulOneMore(cps, c.ticks);
    if ops != [] {
      assert ops[1..] == [];
      OpExact(c.token, ops[0], cps, burst);
    }
  }

  /** While the loop goes on no token is lost: all that came in, and one more for every read that failed for good, is
      in the bucket, held, written, or ran over. */
  lemma {:induction false} CopyExact(c: Copy, es: seq<Event>, cps: int, burst: int, bufsize: int)
    requires cps >= 0 && 0 <= c.token <= burst && bufsize >= 0 && Sound(c.phase) && !c.phase.Ended?
    requires var r := RunCopy(c, es, cps, burst, bufsize); r.Some? && !r.value.phase.Ended?
    ensures var r := RunCopy(c, es, cps, burst, bufsize).value;
      Account(r) + AllSpilled(c.token, OpsOfRun(c, es, cps, burst, bufsize), cps, burst) + cps * c.ticks + c.errors
        == Account(c) + cps * r.ticks + r.errors
    decreases |es|
  {
    if es != [] {
      var c' := Next(c, es[0], cps, burst, bufsize).value;
      if c'.phase.Ended? {
        OnlyTicks(c', es[1..], cps, burst, bufsize);
      }
      StepExact(c, es[0], cps, burst, bufsize);
      CopyExact(c', es[1..], cps, burst, bufsize);
      SpilledAppend(c.token, OpsOf(c, es[0], bufsize), OpsOfRun(c', es[1..], cps, burst, bufsize), cps, burst);
    }
  }

  const BEGIN := Copy(0, Fetching, [], 0, 0)

  /** Every run, however reads and writes are cut short, interrupted or refilled in between, writes at most
      cps bytes a refill, and one more for every read that failed for good. */
  lemma WrittenBound(es: seq<Event>, cps: int, burst: int, bufsize: int)
    requires cps >= 0 && burst >= 0 && bufsize >= 0 && RunCopy(BEGIN, es, cps, burst, bufsize).Some?
    ensures var c := RunCopy(BEGIN, es, cps, burst, bufsize).value; |c.out| <= cps * c.ticks + c.errors
  {
    RunCopyPaid(BEGIN, es, cps, burst, bufsize);
  }

  /** A failed read gives back one token more than the loop held, whenever the burst leaves room for it. */
  lemma FailedReadMintsToken(c: Copy, size: nat, cps: int, burst: int, bufsize: int)
    requires c.phase == Reading(size) && c.token + size < burst
    ensures RunCopy(c, [ReadFailed, GiveBack], cps, burst, bufsize)
         == Some(c.(token := c.token + size + 1, phase := Fetching, errors := c.errors + 1))
  {
    var failed := c.(phase := Returning(size + 1, []), errors := c.errors + 1);
    assert [ReadFailed, GiveBack][1..] == [GiveBack];
    assert RunCopy(failed, [GiveBack], cps, burst, bufsize) == Next(failed, GiveBack, cps, burst, bufsize);
  }

  /** What ends the loop: the end of the input, or a write that fails for good. */
  predicate Ends(e: Event) {
    e.WriteFailed? || e == ReadGot([])
  }

  /** The loop goes on, whatever else fails or falls short, until one of these happens, and then it is over. */
  lemma {:induction false} CopyEndsIff(c: Copy, es: seq<Event>, cps: int, burst: int, bufsize: int)
    requires !c.phase.Ended? && RunCopy(c, es, cps, burst, bufsize).Some?
    ensures RunCopy(c, es, cps, burst, bufsize).value.phase.Ended? <==> exists i :: 0 <= i < |es| && Ends(es[i])
    ensures forall i, j :: 0 <= i < j < |es| && Ends(es[i]) ==> es[j].Tick?
    decreases |es|
  {
    if es != [] {
      var c' := Next(c, es[0], cps, burst, bufsize).value;
      if Ends(es[0]) {
        OnlyTicks(c', es[1..], cps, burst, bufsize);
      } else {
        CopyEndsIff(c', es[1..], cps, burst, bufsize);
      }
      forall i, j | 0 <= i < j < |es| && Ends(es[i]) ensures es[j].Tick? {
        assert es[j] == es[1..][j - 1] && (i > 0 ==> es[i] == es[1..][i - 1]);
      }
      assert forall i :: 0 < i < |es| ==> es[i] == es[1..][i - 1];
      assert forall i :: 0 <= i < |es[1..]| ==> es[1..][i] == es[i + 1];
    }
  }

  lemma {:induction false} OnlyTicks(c: Copy, es: seq<Event>, cps: int, burst: int, bufsize: int)
    requires c.phase.Ended? && RunCopy(c, es, cps, burst, bufsize).Some?
    ensures RunCopy(c, es, cps, burst, bufsize).value.phase.Ended? && forall i :: 0 <= i < |es| ==> es[i].Tick?
    decreases |es|
  {
    if es != [] {
      OnlyTicks(Next(c, es[0], cps, burst, bufsize).value, es[1..], cps, burst, bufsize);
    }
  }

  // ----- When the plain bound holds -----

  lemma {:induction false} RunCopyAppend(c: Copy, a: seq<Event>, b: seq<Event>, cps: int, burst: int, bufsize: int)
    ensures RunCopy(c, a + b, cps, burst, bufsize) ==
      match RunCopy(c, a, cps, burst, bufsize) case None => None case Some(c') => RunCopy(c', b, cps, burst, bufsize)
    decreases |a|
  {
    if a == [] {
      assert a + b == b;
    } else {
      assert (a + b)[1..] == a[1..] + b;
      if Next(c, a[0], cps, burst, bufsize).Some? {
        RunCopyAppend(Next(c, a[0], cps, burst, bufsize).value, a[1..], b, cps, burst, bufsize);
      }
    }
  }

  /** Without refills, or without a buffer, nothing is ever written. */
  ghost predicate Dry(c: Copy, cps: int) {
    && c.out == [] && c.token >= 0 && (cps == 0 ==> c.token == 0 && c.phase.Fetching?)
    && match c.phase
       case Reading(size) => size == 0
       case Returning(back, data) => back >= 0 && data == []
       case Writing(_, _) => false
       case _ => true
  }

  lemma {:induction false} RunDry(c: Copy, es: seq<Event>, cps: int, burst: int, bufsize: int)
    requires cps >= 0 && burst >= 0 && bufsize >= 0 && (cps == 0 || bufsize == 0)
    requires Dry(c, cps) && RunCopy(c, es, cps, burst, bufsize).Some?
    ensures Dry(RunCopy(c, es, cps, burst, bufsize).value, cps)
    decreases |es|
  {
    if es != [] {
      RunDry(Next(c, es[0], cps, burst, bufsize).value, es[1..], cps, burst, bufsize);
    }
  }

  /** A bucket of one token: what a failed read gives back beyond it overflows. */
  ghost predicate Frugal(c: Copy, cps: int) {
    && 0 <= c.token <= 1
    && match c.phase
       case Reading(size) => size == 1 && c.token + 1 + |c.out| <= cps * c.ticks
       case Returning(back, data) => back == 2 && data == [] && c.token + 1 + |c.out| <= cps * c.ticks
       case Writing(data, left) => 0 <= left && c.token + left + |c.out| <= cps * c.ticks
       case _ => c.token + |c.out| <= cps * c.ticks
  }

  lemma {:induction false} RunFrugal(c: Copy, es: seq<Event>, cps: int, burst: int, bufsize: int)
    requires cps >= 0 && 0 <= burst <= 1 && bufsize >= 1
    requires Frugal(c, cps) && RunCopy(c, es, cps, burst, bufsize).Some?
    ensures Frugal(RunCopy(c, es, cps, burst, bufsize).value, cps)
    decreases |es|
  {
    if es != [] {
      MulOneMore(cps, c.ticks);
      RunFrugal(Next(c, es[0], cps, burst, bufsize).value, es[1..], cps, burst, bufsize);
    }
  }

  /** Where the loop can take a token, and where it can be brought back to without a refill. */
  predicate Ready(c: Copy, burst: int) {
    c.phase.Fetching? && 1 <= c.token <= burst
  }

  /** Without any refill one more byte can be written, a failed read making up for the last token. */
  lemma OneMoreByte(c: Copy, cps: int, burst: int, bufsize: int) returns (es: seq<Event>)
    requires Ready(c, burst) && burst >= 2 && bufsize >= 1
    ensures var r := RunCopy(c, es, cps, burst, bufsize);
      r.Some? && Ready(r.value, burst) && |r.value.out| == |c.out| + 1 && r.value.ticks == c.ticks
  {
    if c.token == 1 {
      var minted := c.(token := 2, errors := c.errors + 1);
      MintOne(c, cps, burst, bufsize);
      var rest := WriteOne(minted, cps, burst, bufsize);
      es := [Take, ReadFailed, GiveBack] + rest;
      RunCopyAppend(c, [Take, ReadFailed, GiveBack], rest, cps, burst, bufsize);
    } else {
      es := WriteOne(c, cps, burst, bufsize);
    }
  }

  lemma MintOne(c: Copy, cps: int, burst: int, bufsize: int)
    requires Ready(c, burst) && c.token == 1 && burst >= 2 && bufsize >= 1
    ensures RunCopy(c, [Take, ReadFailed, GiveBack], cps, burst, bufsize)
         == Some(c.(token := 2, errors := c.errors + 1))
  {
    var taken := c.(token := 0, phase := Reading(1));
    FailedReadMintsToken(taken, 1, cps, burst, bufsize);
    assert [Take, ReadFailed, GiveBack][1..] == [ReadFailed, GiveBack];
  }

  lemma WriteOne(c: Copy, cps: int, burst: int, bufsize: int) returns (es: seq<Event>)
    requires Ready(c, burst) && c.token >= 2 && bufsize >= 1
    ensures RunCopy(c, es, cps, burst, bufsize) == Some(c.(token := c.token - 1, out := c.out + [0]))
  {
    var size := Min(c.token, bufsize);
    var taken := c.(token := c.token - size, phase := Reading(size));
    var ready := c.(token := c.token - 1, phase := Writing([0], 1));
    RunOne(c, Take, cps, burst, bufsize);
    RunOne(taken, ReadGot([0]), cps, burst, bufsize);
    RunOne(ready, Wrote(1), cps, burst, bufsize);
    es := [Take] + [ReadGot([0])];
    RunCopyAppend(c, [Take], [ReadGot([0])], cps, burst, bufsize);
    if size > 1 {
      var back := taken.(phase := Returning(size - 1, [0]));
      RunOne(back, GiveBack, cps, burst, bufsize);
      RunCopyAppend(c, es, [GiveBack], cps, burst, bufsize);
      es := es + [GiveBack];
    }
    RunCopyAppend(c, es, [Wrote(1)], cps, burst, bufsize);
    es := es + [Wrote(1)];
    assert [0][..1] == [0];
  }

  lemma RunOne(c: Copy, e: Event, cps: int, burst: int, bufsize: int)
    ensures RunCopy(c, [e], cps, burst, bufsize) == Next(c, e, cps, burst, bufsize)
  {
  }

  lemma {:induction false} MoreBytes(c: Copy, k: nat, cps: int, burst: int, bufsize: int) returns (es: seq<Event>)
    requires Ready(c, burst) && burst >= 2 && bufsize >= 1
    ensures var r := RunCopy(c, es, cps, burst, bufsize);
      r.Some? && |r.value.out| == |c.out| + k && r.value.ticks == c.ticks
    decreases k
  {
    if k == 0 {
      es := [];
    } else {
      var first := OneMoreByte(c, cps, burst, bufsize);
      var rest := MoreBytes(RunCopy(c, first, cps, burst, bufsize).value, k - 1, cps, burst, bufsize);
      RunCopyAppend(c, first, rest, cps, burst, bufsize);
      es := first + rest;
    }
  }

  /** A run with one refill that writes as many bytes as one likes. */
  lemma BreakingRun(k: nat, cps: int, burst: int, bufsize: int) returns (es: seq<Event>)
    requires cps >= 1 && burst >= 2 && bufsize >= 1
    ensures var r := RunCopy(BEGIN, es, cps, burst, bufsize);
      r.Some? && |r.value.out| == k && r.value.ticks == 1
  {
    var first := BEGIN.(token := Min(cps, burst), ticks := 1);
    RunOne(BEGIN, Tick, cps, burst, bufsize);
    var rest := MoreBytes(first, k, cps, burst, bufsize);
    RunCopyAppend(BEGIN, [Tick], rest, cps, burst, bufsize);
    es := [Tick] + rest;
  }

  ghost predicate AlwaysPaid(cps: int, burst: int, bufsize: int) {
    forall es :: RunCopy(BEGIN, es, cps, burst, bufsize).Some? ==>
      var c := RunCopy(BEGIN, es, cps, burst, bufsize).value; |c.out| <= cps * c.ticks
  }

  /** Every run writes at most cps bytes a refill exactly when nothing can be written at all
      or the bucket never holds more than one token. */
  lemma AlwaysPaidIff(cps: int, burst: int, bufsize: int)
    requires cps >= 0 && burst >= 0 && bufsize >= 0
    ensures AlwaysPaid(cps, burst, bufsize) <==> cps == 0 || burst <= 1 || bufsize == 0
  {
    if cps >= 1 && burst >= 2 && bufsize >= 1 {
      var es := BreakingRun(cps + 1, cps, burst, bufsize);
      assert RunCopy(BEGIN, es, cps, burst, bufsize).Some?;
    } else {
      forall es | RunCopy(BEGIN, es, cps, burst, bufsize).Some?
        ensures var c := RunCopy(BEGIN, es, cps, burst, bufsize).value; |c.out| <= cps * c.ticks
      {
        if cps == 0 || bufsize == 0 {
          RunDry(BEGIN, es, cps, burst, bufsize);
        } else {
          RunFrugal(BEGIN, es, cps, burst, bufsize);
        }
      }
    }
  }

  // ----- Short writes -----

  /** What may happen while a chunk is written, up to the write that ends it. */
  predicate WritesUp(es: seq<Event>) {
    && es != [] && es[|es| - 1].Wrote? && es[|es| - 1].n >= 1
    && forall i :: 0 <= i < |es| ==> es[i].Tick? || es[i].WriteInterrupted? || (es[i].Wrote? && es[i].n >= 0)
  }

  function Amount(e: Event): nat {
    if e.Wrote? && e.n >= 0 then e.n else 0
  }

  function Total(es: seq<Event>): nat {
    if es == [] then 0 else Amount(es[0]) + Total(es[1..])
  }

  /** The writes that took anything. */
  function Pieces(es: seq<Event>): nat {
    if es == [] then 0 else (if Amount(es[0]) > 0 then 1 else 0) + Pieces(es[1..])
  }

  /** What comes out of a chunk when each of these writes starts at its front. */
  function Emitted(data: Bytes, es: seq<Event>): (out: Bytes)
    requires Total(es) <= |data|
    ensures |out| == Total(es)
  {
    if es == [] then [] else data[..Amount(es[0])] + Emitted(data, es[1..])
  }

  /** The writing loop goes through exactly these writes, and that is what it puts out. */
  lemma {:induction false} WritingEmits(c: Copy, data: Bytes, es: seq<Event>, cps: int, burst: int, bufsize: int)
    requires WritesUp(es) && Total(es) <= |data| && c.phase == Writing(data, Total(es))
    ensures var r := RunCopy(c, es, cps, burst, bufsize);
      r.Some? && r.value.phase.Fetching? && r.value.out == c.out + Emitted(data, es)
    decreases |es|
  {
    var c' := Next(c, es[0], cps, burst, bufsize).value;
    if |es| == 1 {
      assert es[1..] == [];
    } else {
      LastPiece(es[1..]);
      WritingEmits(c', data, es[1..], cps, burst, bufsize);
      assert c.out + data[..Amount(es[0])] + Emitted(data, es[1..])
        == c.out + (data[..Amount(es[0])] + Emitted(data, es[1..]));
    }
  }

  lemma {:induction false} LastPiece(es: seq<Event>)
    requires WritesUp(es)
    ensures Total(es) >= 1 && Pieces(es) >= 1
  {
    if |es| > 1 {
      LastPiece(es[1..]);
    }
  }

  lemma {:induction false} NoPieces(es: seq<Event>)
    ensures Pieces(es) == 0 <==> Total(es) == 0
  {
    if es != [] {
      NoPieces(es[1..]);
    }
  }

  lemma {:induction false} OnePiece(data: Bytes, es: seq<Event>)
    requires Pieces(es) <= 1 && Total(es) <= |data|
    ensures Emitted(data, es) == data[..Total(es)]
  {
    if es != [] {
      if Amount(es[0]) == 0 {
        OnePiece(data, es[1..]);
        assert data[..0] == [];
      } else {
        NoPieces(es[1..]);
        assert Emitted(data, es[1..]) == [];
      }
    }
  }

  /** With a second piece the front of the chunk comes out again, at a place below its length. */
  lemma {:induction false} SecondPieceAtFront(data: Bytes, es: seq<Event>) returns (i: nat)
    requires Pieces(es) >= 2 && Total(es) <= |data|
    ensures 1 <= i < Total(es) && Emitted(data, es)[i] == data[0]
  {
    if Amount(es[0]) == 0 {
      i := SecondPieceAtFront(data, es[1..]);
    } else {
      i := Amount(es[0]);
      NoPieces(es[1..]);
      FirstPieceAtFront(data, es[1..]);
    }
  }

  lemma {:induction false} FirstPieceAtFront(data: Bytes, es: seq<Event>)
    requires Pieces(es) >= 1 && Total(es) <= |data|
    ensures Total(es) >= 1 && Emitted(data, es)[0] == data[0]
  {
    if Amount(es[0]) == 0 {
      FirstPieceAtFront(data, es[1..]);
    }
  }

  ghost predicate ComesOutRight(es: seq<Event>, cps: int, burst: int, bufsize: int) {
    forall c: Copy, data: Bytes :: |data| == Total(es) && c.phase == Writing(data, |data|) ==>
      var r := RunCopy(c, es, cps, burst, bufsize); r.Some? && r.value.out == c.out + data
  }

  /** A chunk of any contents is written right exactly when one of the writes takes all of it. */
  lemma ShortWritesRepeat(es: seq<Event>, cps: int, burst: int, bufsize: int)
    requires WritesUp(es)
    ensures ComesOutRight(es, cps, burst, bufsize) <==> Pieces(es) == 1
  {
    LastPiece(es);
    if Pieces(es) == 1 {
      OnePieceRight(es, cps, burst, bufsize);
    } else {
      MorePiecesWrong(es, cps, burst, bufsize);
    }
  }

  lemma OnePieceRight(es: seq<Event>, cps: int, burst: int, bufsize: int)
    requires WritesUp(es) && Pieces(es) == 1
    ensures ComesOutRight(es, cps, burst, bufsize)
  {
    forall c: Copy, data: Bytes | |data| == Total(es) && c.phase == Writing(data, |data|)
      ensures var r := RunCopy(c, es, cps, burst, bufsize); r.Some? && r.value.out == c.out + data
    {
      WritingEmits(c, data, es, cps, burst, bufsize);
      OnePiece(data, es);
      assert data[..|data|] == data;
    }
  }

  lemma MorePiecesWrong(es: seq<Event>, cps: int, burst: int, bufsize: int)
    requires WritesUp(es) && Pieces(es) >= 2
    ensures !ComesOutRight(es, cps, burst, bufsize)
  {
    var data := seq(Total(es), i => i);
    var c := Copy(0, Writing(data, |data|), [], 0, 0);
    WritingEmits(c, data, es, cps, burst, bufsize);
    var i := SecondPieceAtFront(data, es);
    assert (c.out + Emitted(data, es))[i] == 0 && (c.out + data)[i] == i;
  }

  // ----- What comes out of a whole run -----

  function Read(es: seq<Event>): Bytes {
    if es == [] then [] else (if es[0].ReadGot? then es[0].data else []) + Read(es[1..])
  }

  /** How many bytes of the chunk in the buffer the count still calls for. */
  function Pending(p: Phase): int {
    match p
    case Returning(_, data) => |data|
    case Writing(_, left) => left
    case _ => 0
  }

  /** A write that takes something of a chunk of which something has been taken before. */
  predicate SecondPiece(c: Copy, e: Event) {
    c.phase.Writing? && c.phase.left < |c.phase.data| && e.Wrote? && e.n > 0
  }

  /** Every chunk of the run is written in one piece, as far as it is written. */
  predicate WholeChunks(c: Copy, es: seq<Event>, cps: int, burst: int, bufsize: int)
    decreases |es|
  {
    es == [] || (
      && !SecondPiece(c, es[0])
      && match Next(c, es[0], cps, burst, bufsize)
         case None => true
         case Some(c') => WholeChunks(c', es[1..], cps, burst, bufsize))
  }

  /** What has come out is the front of what has been read, and until the end all but what is pending. */
  predicate Faithful(c: Copy, read: Bytes) {
    && c.out <= read
    && (!c.phase.Ended? ==> |c.out| + Pending(c.phase) == |read|)
    && (c.phase.Writing? ==> 0 <= c.phase.left <= |c.phase.data|)
    && (c.phase.Returning? || c.phase.Writing? ==> EndsWith(read, c.phase.data))
  }

  predicate EndsWith(read: Bytes, data: Bytes) {
    |data| <= |read| && read[|read| - |data|..] == data
  }

  lemma FrontComesNext(out: Bytes, data: Bytes, n: nat, read: Bytes)
    requires out <= read && EndsWith(read, data) && |out| + |data| == |read| && n <= |data|
    ensures out + data[..n] <= read
  {
    assert read[|out|..] == data;
    assert read[..|out| + n] == out + data[..n];
  }

  lemma FaithfulWrite(c: Copy, n: nat, read: Bytes, cps: int, burst: int, bufsize: int)
    requires Faithful(c, read) && c.phase.Writing? && !SecondPiece(c, Wrote(n))
    requires Next(c, Wrote(n), cps, burst, bufsize).Some?
    ensures Faithful(Next(c, Wrote(n), cps, burst, bufsize).value, read)
  {
    if n == 0 {
      assert c.out + c.phase.data[..0] == c.out;
    } else {
      FrontComesNext(c.out, c.phase.data, n, read);
    }
  }

  lemma FaithfulNext(c: Copy, e: Event, read: Bytes, cps: int, burst: int, bufsize: int)
    requires Faithful(c, read) && !SecondPiece(c, e) && Next(c, e, cps, burst, bufsize).Some?
    ensures Faithful(Next(c, e, cps, burst, bufsize).value, read + if e.ReadGot? then e.data else [])
  {
    if e.ReadGot? {
      assert EndsWith(read + e.data, e.data);
    } else {
      assert read + [] == read;
      if e.Wrote? {
        FaithfulWrite(c, e.n, read, cps, burst, bufsize);
      }
    }
  }

  lemma Associate(a: Bytes, b: Bytes, c: Bytes)
    ensures a + b + c == a + (b + c)
  {
  }

  lemma {:induction false} RunFaithful(c: Copy, es: seq<Event>, read: Bytes, cps: int, burst: int, bufsize: int)
    requires Faithful(c, read) && WholeChunks(c, es, cps, burst, bufsize)
    requires RunCopy(c, es, cps, burst, bufsize).Some?
    ensures Faithful(RunCopy(c, es, cps, burst, bufsize).value, read + Read(es))
    decreases |es|
  {
    if es == [] {
      assert read + [] == read;
    } else {
      var got := if es[0].ReadGot? then es[0].data else [];
      FaithfulNext(c, es[0], read, cps, burst, bufsize);
      var c' := Next(c, es[0], cps, burst, bufsize).value;
      RunFaithful(c', es[1..], read + got, cps, burst, bufsize);
      assert RunCopy(c, es, cps, burst, bufsize) == RunCopy(c', es[1..], cps, burst, bufsize);
      Associate(read, got, Read(es[1..]));
    }
  }

  /** The same run with other bytes in the chunks. */
  predicate SameEvent(e: Event, e': Event) {
    e == e' || (e.ReadGot? && e'.ReadGot? && |e.data| == |e'.data|)
  }

  predicate SameShape(es: seq<Event>, es': seq<Event>) {
    |es| == |es'| && forall i :: 0 <= i < |es| ==> SameEvent(es[i], es'[i])
  }

  predicate SamePhase(p: Phase, p': Phase) {
    match (p, p')
    case (Returning(back, data), Returning(back', data')) => back == back' && |data| == |data'|
    case (Writing(data, left), Writing(data', left')) => left == left' && |data| == |data'|
    case _ => p == p'
  }

  predicate SameButBytes(c: Copy, c': Copy) {
    c.token == c'.token && SamePhase(c.phase, c'.phase)
  }

  lemma {:induction false} ShapeDecides(c: Copy, c': Copy, es: seq<Event>, es': seq<Event>,
                                        cps: int, burst: int, bufsize: int)
    requires SameButBytes(c, c') && SameShape(es, es')
    ensures WholeChunks(c, es, cps, burst, bufsize) == WholeChunks(c', es', cps, burst, bufsize)
    ensures var r, r' := RunCopy(c, es, cps, burst, bufsize), RunCopy(c', es', cps, burst, bufsize);
      r.Some? == r'.Some? && (r.Some? ==> SameButBytes(r.value, r'.value))
    decreases |es|
  {
    if es != [] {
      assert SameEvent(es[0], es'[0]);
      assert SameShape(es[1..], es'[1..]);
      var n, n' := Next(c, es[0], cps, burst, bufsize), Next(c', es'[0], cps, burst, bufsize);
      if n.Some? {
        ShapeDecides(n.value, n'.value, es[1..], es'[1..], cps, burst, bufsize);
      }
    }
  }

  function Count(k: nat): Bytes {
    seq(k, i => i)
  }

  /** The run in which the bytes read are k, k + 1 and so on. */
  function Counted(es: seq<Event>, k: nat): seq<Event> {
    if es == [] then []
    else if es[0].ReadGot? then
      [ReadGot(seq(|es[0].data|, i => k + i))] + Counted(es[1..], k + |es[0].data|)
    else [es[0]] + Counted(es[1..], k)
  }

  lemma {:induction false} CountedShape(es: seq<Event>, k: nat)
    ensures SameShape(es, Counted(es, k))
    ensures Counted(Counted(es, k), k) == Counted(es, k)
    ensures Count(k) + Read(Counted(es, k)) == Count(k + |Read(Counted(es, k))|)
  {
    if es != [] {
      var k' := if es[0].ReadGot? then k + |es[0].data| else k;
      CountedShape(es[1..], k');
      var first, rest := Counted(es, k)[0], Counted(es[1..], k');
      assert Counted(es, k) == [first] + rest && Counted(es, k)[1..] == rest;
      if es[0].ReadGot? {
        assert Count(k) + first.data == Count(k');
        assert Count(k) + (first.data + Read(rest)) == Count(k) + first.data + Read(rest);
      } else {
        assert [] + Read(rest) == Read(rest);
      }
    }
  }

  lemma {:induction false} OutGrows(c: Copy, es: seq<Event>, cps: int, burst: int, bufsize: int)
    requires RunCopy(c, es, cps, burst, bufsize).Some?
    ensures c.out <= RunCopy(c, es, cps, burst, bufsize).value.out
    decreases |es|
  {
    if es != [] {
      OutGrows(Next(c, es[0], cps, burst, bufsize).value, es[1..], cps, burst, bufsize);
    }
  }

  lemma CountedOn(es: seq<Event>, k: nat)
    requires es != [] && es == Counted(es, k)
    ensures var got := if es[0].ReadGot? then es[0].data else [];
      Count(k) + got == Count(k + |got|) && es[1..] == Counted(es[1..], k + |got|)
  {
  }

  /** The first second piece puts the front of the chunk where a later byte belongs, and it stays there. */
  lemma {:induction false} Misplaced(c: Copy, es: seq<Event>, k: nat, cps: int, burst: int, bufsize: int)
      returns (j: nat)
    requires Faithful(c, Count(k)) && es == Counted(es, k)
    requires RunCopy(c, es, cps, burst, bufsize).Some? && !WholeChunks(c, es, cps, burst, bufsize)
    ensures var out := RunCopy(c, es, cps, burst, bufsize).value.out; j < |out| && out[j] != j
    decreases |es|
  {
    var c' := Next(c, es[0], cps, burst, bufsize).value;
    if SecondPiece(c, es[0]) {
      j := |c.out|;
      FrontRepeated(c, es[0], k, cps, burst, bufsize);
      OutGrows(c', es[1..], cps, burst, bufsize);
    } else {
      var got := if es[0].ReadGot? then es[0].data else [];
      FaithfulNext(c, es[0], Count(k), cps, burst, bufsize);
      CountedOn(es, k);
      j := Misplaced(c', es[1..], k + |got|, cps, burst, bufsize);
    }
  }

  lemma FrontRepeated(c: Copy, e: Event, k: nat, cps: int, burst: int, bufsize: int)
    requires Faithful(c, Count(k)) && SecondPiece(c, e) && Next(c, e, cps, burst, bufsize).Some?
    ensures var out := Next(c, e, cps, burst, bufsize).value.out; |out| > |c.out| && out[|c.out|] != |c.out|
  {
    var data, left := c.phase.data, c.phase.left;
    assert data[0] == Count(k)[k - |data|];
    assert (c.out + data[..e.n])[|c.out|] == data[0];
  }

  /** Whatever bytes are read, what has come out is the front of what has been read. */
  ghost predicate KeepsContents(es: seq<Event>, cps: int, burst: int, bufsize: int) {
    forall es' :: SameShape(es, es') && RunCopy(BEGIN, es', cps, burst, bufsize).Some? ==>
      RunCopy(BEGIN, es', cps, burst, bufsize).value.out <= Read(es')
  }

  /** Whatever bytes are read, what has come out is what has been read. */
  ghost predicate CopiesAll(es: seq<Event>, cps: int, burst: int, bufsize: int) {
    forall es' :: SameShape(es, es') && RunCopy(BEGIN, es', cps, burst, bufsize).Some? ==>
      RunCopy(BEGIN, es', cps, burst, bufsize).value.out == Read(es')
  }

  /** A run keeps the contents exactly when it never writes a second piece of a chunk; brought back to
      where the loop begins, exactly such a run has copied all it read. */
  lemma RunCopiesIff(es: seq<Event>, cps: int, burst: int, bufsize: int)
    requires RunCopy(BEGIN, es, cps, burst, bufsize).Some?
    ensures KeepsContents(es, cps, burst, bufsize) <==> WholeChunks(BEGIN, es, cps, burst, bufsize)
    ensures RunCopy(BEGIN, es, cps, burst, bufsize).value.phase.Fetching? ==>
      (CopiesAll(es, cps, burst, bufsize) <==> WholeChunks(BEGIN, es, cps, burst, bufsize))
  {
    if WholeChunks(BEGIN, es, cps, burst, bufsize) {
      forall es' | SameShape(es, es')
        ensures var r' := RunCopy(BEGIN, es', cps, burst, bufsize);
          r'.Some? && Faithful(r'.value, Read(es'))
          && SameButBytes(RunCopy(BEGIN, es, cps, burst, bufsize).value, r'.value)
      {
        ShapeDecides(BEGIN, BEGIN, es, es', cps, burst, bufsize);
        RunFaithful(BEGIN, es', [], cps, burst, bufsize);
        assert [] + Read(es') == Read(es');
      }
    } else {
      var es' := Counted(es, 0);
      CountedShape(es, 0);
      ShapeDecides(BEGIN, BEGIN, es, es', cps, burst, bufsize);
      var j := Misplaced(BEGIN, es', 0, cps, burst, bufsize);
      assert Count(0) + Read(es') == Read(es');
    }
  }
}
