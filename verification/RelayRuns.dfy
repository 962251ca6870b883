/**
  What a machine of the relay does over a whole run: where it ends up, from what it has met, and how many of the
  bytes have come through. The runs of the polling thread and of the select loop are such runs for each machine.
 */
module RelayRuns {
  import opened Wrappers
  import opened Relay

  /** A call of the machine fails for good. */
  predicate Fails(m: Machine, o: Outcome) {
    (m.state.STATE_R? && o.rd.ReadFailed?) || (m.state.STATE_W? && o.wr.WriteFailed?)
  }

  predicate SeesEof(m: Machine, o: Outcome) {
    m.state.STATE_R? && o.rd.ReadEof?
  }

  /** The turns before the first failure. */
  function BeforeFailure(m: Machine, os: seq<Outcome>): (n: nat)
    requires Inv(m) && DriveAll(m, os).Some?
    ensures n <= |os|
    decreases |os|
  {
    if os == [] || Fails(m, os[0]) then 0
    else
      DriveInv(m, os[0]);
      1 + BeforeFailure(Drive(m, os[0]), os[1..])
  }

  /** The turns before the end of the input is met. */
  function BeforeEof(m: Machine, os: seq<Outcome>): (n: nat)
    requires Inv(m) && DriveAll(m, os).Some?
    ensures n <= |os|
    decreases |os|
  {
    if os == [] || SeesEof(m, os[0]) then 0
    else
      DriveInv(m, os[0]);
      1 + BeforeEof(Drive(m, os[0]), os[1..])
  }

  lemma {:induction false} StaysEnded(m: Machine, os: seq<Outcome>)
    requires Inv(m) && m.state.STATE_T?
    ensures DriveAll(m, os) == Some(m) && BeforeFailure(m, os) == BeforeEof(m, os) == |os|
    decreases |os|
  {
    if os != [] {
      DriveInv(m, os[0]);
      StaysEnded(m, os[1..]);
    }
  }

  lemma EndsNext(m: Machine, os: seq<Outcome>)
    requires Inv(m) && m.state.STATE_Ex? && DriveAll(m, os).Some?
    ensures DriveAll(m, os).value == (if os == [] then m else m.(state := STATE_T))
    ensures BeforeEof(m, os) == |os|
  {
    if os != [] {
      DriveInv(m, os[0]);
      StaysEnded(Drive(m, os[0]), os[1..]);
    }
  }

  /** From a live machine, in any run: it is in the error state exactly in the turn after a failure, ended without the
      end of the input exactly from the turn after that, ended with it, and everything delivered, exactly if it met
      it, and else still at work. Short reads, partial writes and calls to be made again end nothing. */
  lemma {:induction false} EndsIff(m: Machine, os: seq<Outcome>)
    requires Inv(m) && Waiting(m) && DriveAll(m, os).Some?
    ensures var r, n, k := DriveAll(m, os).value, |os|, BeforeFailure(m, os);
      && (r.state.STATE_Ex? <==> k + 1 == n)
      && (r.state.STATE_T? && !r.eof <==> k + 1 < n)
      && (r.state.STATE_T? && r.eof && r.sent == r.got <==> BeforeEof(m, os) < n)
      && (Waiting(r) <==> k == n && BeforeEof(m, os) == n)
    decreases |os|
  {
    if os != [] {
      var m' := Drive(m, os[0]);
      DriveInv(m, os[0]);
      if Fails(m, os[0]) {
        EndsNext(m', os[1..]);
      } else if SeesEof(m, os[0]) {
        StaysEnded(m', os[1..]);
      } else {
        EndsIff(m', os[1..]);
      }
    }
  }

  /** The bytes that the reads of a run hand over, read by a machine that is ready to read. */
  function Input(m: Machine, os: seq<Outcome>): Buffer
    requires Inv(m) && DriveAll(m, os).Some?
    decreases |os|
  {
    if os == [] then []
    else
      DriveInv(m, os[0]);
      (if m.state.STATE_R? && os[0].rd.ReadGot? then os[0].rd.data else []) + Input(Drive(m, os[0]), os[1..])
  }

  /** How many bytes the writes of a run take, from a machine that has something to write. */
  function Output(m: Machine, os: seq<Outcome>): nat
    requires Inv(m) && DriveAll(m, os).Some?
    decreases |os|
  {
    if os == [] then 0
    else
      DriveInv(m, os[0]);
      (if m.state.STATE_W? && os[0].wr.Wrote? then os[0].wr.n else 0) + Output(Drive(m, os[0]), os[1..])
  }

  /** One turn: what is read is logged, and what a write takes is the front of what was to be written. */
  lemma TurnLogs(m: Machine, o: Outcome)
    requires Inv(m) && Possible(m, o)
    ensures var r := Drive(m, o);
      && r.got == m.got + (if m.state.STATE_R? && o.rd.ReadGot? then o.rd.data else [])
      && |r.sent| == |m.sent| + if m.state.STATE_W? && o.wr.Wrote? then o.wr.n else 0
  {
    assert m.got + [] == m.got;
  }

  lemma Associate(a: Buffer, b: Buffer, c: Buffer)
    ensures a + b + c == a + (b + c) && a + [] == a
  {
  }

  /** In any run all that was read is in the log of bytes read, and of these exactly as many as the writes took, in
      order, have been delivered. */
  lemma {:induction false} NothingLost(m: Machine, os: seq<Outcome>)
    requires Inv(m) && DriveAll(m, os).Some?
    ensures var r := DriveAll(m, os).value;
      && r.got == m.got + Input(m, os) && r.sent <= r.got && |r.sent| == |m.sent| + Output(m, os)
    decreases |os|
  {
    if os == [] {
      Associate(m.got, [], []);
    } else {
      var m' := Drive(m, os[0]);
      DriveInv(m, os[0]);
      TurnLogs(m, os[0]);
      NothingLost(m', os[1..]);
      Associate(m.got, if m.state.STATE_R? && os[0].rd.ReadGot? then os[0].rd.data else [], Input(m', os[1..]));
    }
  }

  predicate NoWriteFails(os: seq<Outcome>) {
    forall i :: 0 <= i < |os| ==> !os[i].wr.WriteFailed?
  }

  function Taken(os: seq<Outcome>): nat {
    if os == [] then 0 else (if os[0].wr.Wrote? then os[0].wr.n else 0) + Taken(os[1..])
  }

  /** However a chunk is cut up, writes that take all of it bring the machine back to reading with all delivered,
      and with fewer bytes taken it still waits to write the rest. */
  lemma {:induction false} PartialWrites(m: Machine, os: seq<Outcome>)
    requires Inv(m) && m.state.STATE_W? && NoWriteFails(os)
    requires Taken(os) <= m.len && (os != [] && Taken(os) == m.len ==> Taken(os[..|os| - 1]) < m.len)
    ensures var r := DriveAll(m, os);
      && r.Some? && r.value.got == m.got && |r.value.sent| == |m.sent| + Taken(os)
      && if Taken(os) == m.len then r.value.state == STATE_R && r.value.sent == r.value.got
         else r.value.state == STATE_W && r.value.len == m.len - Taken(os)
    decreases |os|
  {
    if os != [] {
      var m', rest := Drive(m, os[0]), os[1..];
      DriveInv(m, os[0]);
      if rest != [] {
        assert os[..|os| - 1][1..] == rest[..|rest| - 1];
        PartialWrites(m', rest);
      }
    }
  }

  // ----- The polling thread -----

  /** The sweeps of the polling thread over one job. */
  function DriveJobs(j: Job, os: seq<(Outcome, Outcome)>): Option<Job>
    requires JobInv(j)
    decreases |os|
  {
    if os == [] then Some(j)
    else if !JobPossible(Some(j), os[0]) then None
    else
      DriveJobInv(Some(j), os[0]);
      DriveJobs(DriveJob(Some(j), os[0]).value, os[1..])
  }

  function First(os: seq<(Outcome, Outcome)>): (r: seq<Outcome>)
    ensures |r| == |os| && forall i :: 0 <= i < |os| ==> r[i] == os[i].0
  {
    seq(|os|, i requires 0 <= i < |os| => os[i].0)
  }

  function Second(os: seq<(Outcome, Outcome)>): (r: seq<Outcome>)
    ensures |r| == |os| && forall i :: 0 <= i < |os| ==> r[i] == os[i].1
  {
    seq(|os|, i requires 0 <= i < |os| => os[i].1)
  }

  /** Over any number of sweeps each machine of a job takes every turn with its own outcomes, and the job is over
      exactly when both have ended. */
  lemma {:induction false} JobDrivesBoth(j: Job, os: seq<(Outcome, Outcome)>)
    requires JobInv(j) && DriveJobs(j, os).Some?
    ensures var r := DriveJobs(j, os).value;
      && DriveAll(j.fsm12, First(os)) == Some(r.fsm12) && DriveAll(j.fsm21, Second(os)) == Some(r.fsm21)
      && (r.state.STATE_OVER? <==> r.fsm12.state.STATE_T? && r.fsm21.state.STATE_T?)
    decreases |os|
  {
    if os != [] {
      var j' := DriveJob(Some(j), os[0]).value;
      DriveJobInv(Some(j), os[0]);
      if j.state.STATE_OVER? {
        StaysEnded(j.fsm12, First(os));
        StaysEnded(j.fsm21, Second(os));
      }
      JobDrivesBoth(j', os[1..]);
      assert First(os)[1..] == First(os[1..]) && Second(os)[1..] == Second(os[1..]);
    }
  }

  // ----- The select loop -----

  /** What the first machine meets in the turns in which it is driven. */
  function Met12(p: Pair, ts: seq<Turn>): seq<Outcome>
    requires PairInv(p) && RunSelect(p, ts).Some?
    decreases |ts|
  {
    if ts == [] then []
    else
      IterateInv(p, ts[0]);
      (if Driven12(p, ts[0].sel) then [ts[0].o12] else []) + Met12(Iterate(p, ts[0]), ts[1..])
  }

  function Met21(p: Pair, ts: seq<Turn>): seq<Outcome>
    requires PairInv(p) && RunSelect(p, ts).Some?
    decreases |ts|
  {
    if ts == [] then []
    else
      IterateInv(p, ts[0]);
      (if Driven21(p, ts[0].sel) then [ts[0].o21] else []) + Met21(Iterate(p, ts[0]), ts[1..])
  }

  /** A run of the select loop is for each machine a run of its own turns, so all of the above holds of it. */
  lemma {:induction false} SelectDrivesBoth(p: Pair, ts: seq<Turn>)
    requires PairInv(p) && RunSelect(p, ts).Some?
    ensures var r := RunSelect(p, ts).value;
      && DriveAll(p.fsm12, Met12(p, ts)) == Some(r.fsm12) && DriveAll(p.fsm21, Met21(p, ts)) == Some(r.fsm21)
      && r.fd1 == p.fd1 && r.fd2 == p.fd2
    decreases |ts|
  {
    if ts != [] {
      var q := Iterate(p, ts[0]);
      IterateInv(p, ts[0]);
      SelectDrivesBoth(q, ts[1..]);
      var rest12, rest21 := Met12(q, ts[1..]), Met21(q, ts[1..]);
      assert [] + rest12 == rest12 && [] + rest21 == rest21;
      assert ([ts[0].o12] + rest12)[1..] == rest12 && ([ts[0].o21] + rest21)[1..] == rest21;
    }
  }
}
