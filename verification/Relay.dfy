/**
  The relay: a state machine that copies from one descriptor to another through a buffer, driven in turns
  with its mirror image by a polling thread, or when select reports what it waits for.
 */
module Relay {
  import opened Wrappers

  datatype Fsm = STATE_R | STATE_W | STATE_Ex | STATE_T

  type Buffer = seq<char>

  /** What a call of read or write may do. */
  datatype ReadResult = ReadGot(data: Buffer) | ReadEof | ReadAgain | ReadFailed
  datatype WriteResult = Wrote(n: nat) | WriteAgain | WriteFailed

  /** One direction. got and sent log the bytes read and written so far, eof that the end of input was seen;
      len and pos have no meaning until the first read. */
  datatype Machine = Machine(state: Fsm, buf: Buffer, len: int, pos: int, got: Buffer, sent: Buffer, eof: bool)

  datatype Outcome = Outcome(rd: ReadResult, wr: WriteResult)

  /** read fills at most the buffer; write takes at most what it is given. */
  predicate Possible(m: Machine, o: Outcome) {
    && (m.state.STATE_R? && o.rd.ReadGot? ==> 1 <= |o.rd.data| <= |m.buf|)
    && (m.state.STATE_W? && o.wr.Wrote? ==> o.wr.n <= m.len)
  }

  function Drive(m: Machine, o: Outcome): Machine
    requires Possible(m, o) && Inv(m)
  {
    match m.state
    case STATE_R =>
      (match o.rd
       case ReadEof => m.(len := 0, state := STATE_T, eof := true)
       case ReadAgain => m.(len := -1)
       case ReadFailed => m.(len := -1, state := STATE_Ex)
       case ReadGot(data) =>
         m.(buf := data + m.buf[|data|..], len := |data|, pos := 0, state := STATE_W, got := m.got + data))
    case STATE_W =>
      (match o.wr
       case WriteAgain => m
       case WriteFailed => m.(state := STATE_Ex)
       case Wrote(n) =>
         m.(pos := m.pos + n, len := m.len - n, sent := m.sent + m.buf[m.pos..m.pos + n],
            state := if m.len - n == 0 then STATE_R else STATE_W))
    case STATE_Ex => m.(state := STATE_T)
    case STATE_T => m
  }

  /** In the write state, what was read is what was written and then the rest of the buffer; otherwise nothing
      is in between, unless an error cut the machine short. */
  predicate Inv(m: Machine) {
    match m.state
    case STATE_R => !m.eof && m.got == m.sent
    case STATE_W => !m.eof && m.len >= 1 && m.pos >= 0 && m.pos + m.len <= |m.buf|
      && m.got == m.sent + m.buf[m.pos..m.pos + m.len]
    case STATE_Ex => !m.eof && m.sent <= m.got
    case STATE_T => m.sent <= m.got && (m.eof ==> m.got == m.sent)
  }

  lemma DriveInv(m: Machine, o: Outcome)
    requires Inv(m) && Possible(m, o)
    ensures Inv(Drive(m, o)) && |Drive(m, o).buf| == |m.buf|
  {
    if m.state.STATE_R? && o.rd.ReadGot? {
      var b := o.rd.data + m.buf[|o.rd.data|..];
      assert b[0..|o.rd.data|] == o.rd.data;
    }
    if m.state.STATE_W? && o.wr.Wrote? {
      var n := o.wr.n;
      assert m.buf[m.pos..m.pos + m.len] == m.buf[m.pos..m.pos + n] + m.buf[m.pos + n..m.pos + m.len];
    }
  }

  /** A fresh machine; buf, len and pos hold whatever was in memory. */
  function Fresh(buf: Buffer, len: int, pos: int): Machine {
    Machine(STATE_R, buf, len, pos, [], [], false)
  }

  function DriveAll(m: Machine, os: seq<Outcome>): Option<Machine>
    requires Inv(m)
    decreases |os|
  {
    if os == [] then Some(m)
    else if !Possible(m, os[0]) then None
    else
      DriveInv(m, os[0]);
      DriveAll(Drive(m, os[0]), os[1..])
  }

  /** For any pattern of short reads, partial writes, retries and errors: the bytes delivered are a prefix of
      the bytes read, and a machine that ended by end of file has delivered all of them. */
  lemma {:induction false} DeliversPrefix(m: Machine, os: seq<Outcome>)
    requires Inv(m) && DriveAll(m, os).Some?
    ensures var r := DriveAll(m, os).value;
      && Inv(r) && r.sent <= r.got && (r.eof ==> r.state == STATE_T && r.sent == r.got)
      && m.got <= r.got && m.sent <= r.sent
    decreases |os|
  {
    if os != [] {
      DriveInv(m, os[0]);
      DeliversPrefix(Drive(m, os[0]), os[1..]);
    }
  }

  // ----- The machine as the source keeps it -----

  class Direction {
    var state: Fsm
    const buf: array<char>
    var len: int
    var pos: int
    ghost var got: Buffer
    ghost var sent: Buffer
    ghost var eof: bool

    ghost function View(): Machine
      reads this, buf
    {
      Machine(state, buf[..], len, pos, got, sent, eof)
    }

    constructor (bufsize: nat)
      ensures fresh(buf) && buf.Length == bufsize && View() == Fresh(buf[..], len, pos)
    {
      buf := new char[bufsize];
      state, got, sent, eof := STATE_R, [], [], false;
    }

    method FsmDriver(o: Outcome)
      requires Inv(View()) && Possible(View(), o)
      modifies this, buf
      ensures View() == Drive(old(View()), o)
    {
      match state {
        case STATE_R =>
          match o.rd {
            case ReadEof =>
              len, state, eof := 0, STATE_T, true;
            case ReadAgain =>
              len := -1;
            case ReadFailed =>
              len, state := -1, STATE_Ex;
            case ReadGot(data) =>
              forall i | 0 <= i < |data| {
                buf[i] := data[i];
              }
              len, pos, state, got := |data|, 0, STATE_W, got + data;
              assert buf[..] == data + old(buf[..])[|data|..];
          }
        case STATE_W =>
          match o.wr {
            case WriteAgain =>
            case WriteFailed =>
              state := STATE_Ex;
            case Wrote(ret) =>
              sent := sent + buf[pos..pos + ret];
              pos := pos + ret;
              len := len - ret;
              state := if len == 0 then STATE_R else STATE_W;
          }
        case STATE_Ex =>
          state := STATE_T;
        case STATE_T =>
      }
    }
  }

  // ----- The job table and the polling thread -----

  datatype JobState = STATE_RUNNING | STATE_OVER

  datatype Job = Job(state: JobState, fsm12: Machine, fsm21: Machine)

  const ENOSPC := 28

  predicate JobInv(j: Job) {
    && Inv(j.fsm12) && Inv(j.fsm21)
    && (j.state.STATE_OVER? <==> j.fsm12.state.STATE_T? && j.fsm21.state.STATE_T?)
  }

  predicate JobPossible(j: Option<Job>, o: (Outcome, Outcome)) {
    j.Some? && j.value.state.STATE_RUNNING? ==> Possible(j.value.fsm12, o.0) && Possible(j.value.fsm21, o.1)
  }

  function DriveJob(j: Option<Job>, o: (Outcome, Outcome)): (r: Option<Job>)
    requires (j.Some? ==> JobInv(j.value)) && JobPossible(j, o)
  {
    if j == None || j.value.state.STATE_OVER? then j
    else
      var a, b := Drive(j.value.fsm12, o.0), Drive(j.value.fsm21, o.1);
      Some(Job(if a.state.STATE_T? && b.state.STATE_T? then STATE_OVER else STATE_RUNNING, a, b))
  }

  /** A sweep of the polling thread keeps every job sound; a job is over exactly when both its machines are done. */
  lemma DriveJobInv(j: Option<Job>, o: (Outcome, Outcome))
    requires (j.Some? ==> JobInv(j.value)) && JobPossible(j, o)
    ensures DriveJob(j, o).Some? <==> j.Some?
    ensures j.Some? ==> JobInv(DriveJob(j, o).value)
    ensures j.Some? && j.value.state.STATE_OVER? ==> DriveJob(j, o) == j
  {
    if j.Some? && j.value.state.STATE_RUNNING? {
      DriveInv(j.value.fsm12, o.0);
      DriveInv(j.value.fsm21, o.1);
    }
  }

  class Relayer {
    const relJob: array<Option<Job>>

    ghost predicate Valid()
      reads this, relJob
    {
      forall i :: 0 <= i < relJob.Length && relJob[i].Some? ==> JobInv(relJob[i].value)
    }

    constructor (jobMax: nat)
      ensures Valid() && fresh(relJob) && relJob[..] == seq(jobMax, _ => None)
    {
      relJob := new Option<Job>[jobMax](_ => None);
      new;
      assert relJob[..] == seq(jobMax, _ => None);
    }

    /** One pass of the polling thread over the table. */
    method Sweep(os: seq<(Outcome, Outcome)>)
      requires Valid() && |os| == relJob.Length
      requires forall i :: 0 <= i < relJob.Length ==> JobPossible(relJob[i], os[i])
      modifies relJob
      ensures Valid()
      ensures forall i :: 0 <= i < relJob.Length ==> relJob[i] == old(DriveJob(relJob[i], os[i]))
    {
      for i := 0 to relJob.Length
        invariant Valid()
        invariant forall k :: 0 <= k < i ==> relJob[k] == old(DriveJob(relJob[k], os[k]))
        invariant forall k :: i <= k < relJob.Length ==> relJob[k] == old(relJob[k])
      {
        if relJob[i].Some? {
          DriveJobInv(relJob[i], os[i]);
          var j := relJob[i].value;
          if j.state == STATE_RUNNING {
            var a, b := Drive(j.fsm12, os[i].0), Drive(j.fsm21, os[i].1);
            relJob[i] := Some(Job(j.state, a, b));
            if a.state == STATE_T && b.state == STATE_T {
              relJob[i] := Some(Job(STATE_OVER, a, b));
            }
          }
        }
      }
    }

    /** The first free place takes the job. */
    method AddJob(fsm12: Machine, fsm21: Machine) returns (pos: int)
      requires Valid() && Inv(fsm12) && Inv(fsm21) && fsm12.state == fsm21.state == STATE_R
      modifies relJob
      ensures Valid()
      ensures pos < 0 ==>
        && pos == -ENOSPC && relJob[..] == old(relJob[..])
        && forall i :: 0 <= i < relJob.Length ==> old(relJob[i]).Some?
      ensures pos >= 0 ==>
        && pos < relJob.Length && old(relJob[pos]) == None
        && (forall i :: 0 <= i < pos ==> old(relJob[i]).Some?)
        && relJob[..] == old(relJob[..])[pos := Some(Job(STATE_RUNNING, fsm12, fsm21))]
    {
      pos := 0;
      while pos < relJob.Length && relJob[pos].Some?
        invariant 0 <= pos <= relJob.Length
        invariant forall i :: 0 <= i < pos ==> relJob[i].Some?
      {
        pos := pos + 1;
      }
      if pos == relJob.Length {
        return -ENOSPC;
      }
      relJob[pos] := Some(Job(STATE_RUNNING, fsm12, fsm21));
    }
  }

  // ----- The relay driven by select -----

  /** select fails for a signal, or returns some of the descriptors it was given. */
  datatype Selection = Interrupted | Ready(rset: set<nat>, wset: set<nat>)

  datatype Pair = Pair(fsm12: Machine, fsm21: Machine, fd1: nat, fd2: nat)

  predicate Live(m: Machine) {
    !m.state.STATE_T?
  }

  /** States in which a machine waits for a descriptor: below STATE_AUTO in the source. */
  predicate Waiting(m: Machine) {
    m.state.STATE_R? || m.state.STATE_W?
  }

  function ReadSet(p: Pair): set<nat> {
    (if p.fsm12.state.STATE_R? then {p.fd1} else {}) + (if p.fsm21.state.STATE_R? then {p.fd2} else {})
  }

  function WriteSet(p: Pair): set<nat> {
    (if p.fsm12.state.STATE_W? then {p.fd2} else {}) + (if p.fsm21.state.STATE_W? then {p.fd1} else {})
  }

  /** What select can answer; without a call of it the sets are the empty ones just built. */
  predicate Answers(p: Pair, sel: Selection) {
    if Waiting(p.fsm12) || Waiting(p.fsm21) then
      sel.Ready? ==> sel.rset <= ReadSet(p) && sel.wset <= WriteSet(p) && sel.rset + sel.wset != {}
    else sel == Ready({}, {})
  }

  predicate Driven12(p: Pair, sel: Selection) {
    sel.Ready? && (p.fd1 in sel.rset || p.fd2 in sel.wset || p.fsm12.state.STATE_Ex? || p.fsm12.state.STATE_T?)
  }

  predicate Driven21(p: Pair, sel: Selection) {
    sel.Ready? && (p.fd2 in sel.rset || p.fd1 in sel.wset || p.fsm21.state.STATE_Ex? || p.fsm21.state.STATE_T?)
  }

  ghost predicate PairInv(p: Pair) {
    Inv(p.fsm12) && Inv(p.fsm21) && p.fd1 != p.fd2
  }

  datatype Turn = Turn(sel: Selection, o12: Outcome, o21: Outcome)

  predicate TurnPossible(p: Pair, t: Turn) {
    Answers(p, t.sel) && Possible(p.fsm12, t.o12) && Possible(p.fsm21, t.o21)
  }

  /** One iteration of the select loop. */
  function Iterate(p: Pair, t: Turn): Pair
    requires PairInv(p) && TurnPossible(p, t)
  {
    p.(fsm12 := if Driven12(p, t.sel) then Drive(p.fsm12, t.o12) else p.fsm12,
       fsm21 := if Driven21(p, t.sel) then Drive(p.fsm21, t.o21) else p.fsm21)
  }

  /** A live machine is driven exactly when select reported the descriptor it waits for itself,
      or when it is in the error state. */
  lemma DrivenExactly(p: Pair, sel: Selection)
    requires PairInv(p) && Answers(p, sel) && sel.Ready?
    ensures OwnOnly(p, sel)
  {
    OwnOnlyApart(p, sel);
  }

  /** Each machine is driven just for what it waits for itself, whatever the two of them wait for. */
  ghost predicate Uncrossed(fd1: nat, fd2: nat) {
    forall p: Pair, sel :: p.fd1 == fd1 && p.fd2 == fd2 && Inv(p.fsm12) && Inv(p.fsm21) ==>
      Answers(p, sel) && sel.Ready? ==> OwnOnly(p, sel)
  }

  predicate OwnOnly(p: Pair, sel: Selection)
    requires sel.Ready?
  {
    && (Live(p.fsm12) ==> (Driven12(p, sel) <==>
      || (p.fsm12.state.STATE_R? && p.fd1 in sel.rset)
      || (p.fsm12.state.STATE_W? && p.fd2 in sel.wset)
      || p.fsm12.state.STATE_Ex?))
    && (Live(p.fsm21) ==> (Driven21(p, sel) <==>
      || (p.fsm21.state.STATE_R? && p.fd2 in sel.rset)
      || (p.fsm21.state.STATE_W? && p.fd1 in sel.wset)
      || p.fsm21.state.STATE_Ex?))
  }

  /** That needs two descriptors, and nothing else: with one for both sides a machine that waits to write is
      driven when the other may read. */
  lemma UncrossedIff(fd1: nat, fd2: nat)
    ensures Uncrossed(fd1, fd2) <==> fd1 != fd2
  {
    if fd1 == fd2 {
      var reader, writer := Fresh("x", 0, 0), Machine(STATE_W, "x", 1, 0, "x", "", false);
      var p, sel := Pair(reader, writer, fd1, fd2), Ready({fd1}, {});
      assert Inv(writer) && Answers(p, sel) && !OwnOnly(p, sel);
    } else {
      forall p: Pair, sel
        | p.fd1 == fd1 && p.fd2 == fd2 && Inv(p.fsm12) && Inv(p.fsm21) && Answers(p, sel) && sel.Ready?
        ensures OwnOnly(p, sel)
      {
        OwnOnlyApart(p, sel);
      }
    }
  }

  lemma OwnOnlyApart(p: Pair, sel: Selection)
    requires p.fd1 != p.fd2 && Answers(p, sel) && sel.Ready?
    ensures OwnOnly(p, sel)
  {
    if Waiting(p.fsm12) || Waiting(p.fsm21) {
      forall d | d in sel.rset ensures d in ReadSet(p) {}
      forall d | d in sel.wset ensures d in WriteSet(p) {}
    }
  }

  /** No iteration spins: unless interrupted, it drives a live machine as long as there is one. */
  lemma SomebodyDriven(p: Pair, sel: Selection)
    requires PairInv(p) && Answers(p, sel) && sel.Ready? && (Live(p.fsm12) || Live(p.fsm21))
    ensures (Live(p.fsm12) && Driven12(p, sel)) || (Live(p.fsm21) && Driven21(p, sel))
  {
    if Waiting(p.fsm12) || Waiting(p.fsm21) {
      var d :| d in sel.rset + sel.wset;
      assert d in ReadSet(p) || d in WriteSet(p);
    }
  }

  /** Equal but for what the next read overwrites anyway. */
  predicate Same(a: Machine, b: Machine) {
    && a.state == b.state && a.got == b.got && a.sent == b.sent && a.eof == b.eof && |a.buf| == |b.buf|
    && (a.state.STATE_W? ==>
          && a.len == b.len && a.len >= 1
          && 0 <= a.pos && a.pos + a.len <= |a.buf| && 0 <= b.pos && b.pos + b.len <= |b.buf|
          && a.buf[a.pos..a.pos + a.len] == b.buf[b.pos..b.pos + b.len])
  }

  lemma DriveSame(a: Machine, b: Machine, o: Outcome)
    requires Inv(a) && Inv(b) && Same(a, b) && Possible(a, o)
    ensures Possible(b, o) && Same(Drive(a, o), Drive(b, o))
  {
    if a.state.STATE_W? && o.wr.Wrote? {
      WriteSame(a, b, o.wr.n);
    } else if a.state.STATE_R? && o.rd.ReadGot? {
      var d := o.rd.data;
      assert (d + a.buf[|d|..])[0..|d|] == d && (d + b.buf[|d|..])[0..|d|] == d;
    }
  }

  lemma SliceSplit<T>(s: seq<T>, i: nat, n: nat, len: nat)
    requires n <= len && i + len <= |s|
    ensures s[i..i + n] == s[i..i + len][..n]
    ensures s[i + n..i + len] == s[i..i + len][n..]
  {
  }

  lemma WriteSame(a: Machine, b: Machine, n: nat)
    requires Inv(a) && Inv(b) && Same(a, b) && a.state.STATE_W? && n <= a.len
    ensures a.buf[a.pos..a.pos + n] == b.buf[b.pos..b.pos + n]
    ensures a.buf[a.pos + n..a.pos + a.len] == b.buf[b.pos + n..b.pos + b.len]
  {
    SliceSplit(a.buf, a.pos, n, a.len);
    SliceSplit(b.buf, b.pos, n, b.len);
  }

  /** The answer that makes polling a machine as good as leaving it alone. */
  const NOT_YET := Outcome(ReadAgain, WriteAgain)

  lemma PollingIdles(m: Machine)
    requires Inv(m) && (Waiting(m) || m.state.STATE_T?)
    ensures Possible(m, NOT_YET) && Same(m, Drive(m, NOT_YET))
  {
  }

  /** What the polling thread's turn would have to see to do what an iteration does. */
  function AsPolled(p: Pair, t: Turn): (Outcome, Outcome) {
    (if Driven12(p, t.sel) then t.o12 else NOT_YET, if Driven21(p, t.sel) then t.o21 else NOT_YET)
  }

  function RunSelect(p: Pair, ts: seq<Turn>): Option<Pair>
    requires PairInv(p)
    decreases |ts|
  {
    if ts == [] then Some(p)
    else if !(Live(p.fsm12) || Live(p.fsm21)) || !TurnPossible(p, ts[0]) then None
    else
      IterateInv(p, ts[0]);
      RunSelect(Iterate(p, ts[0]), ts[1..])
  }

  lemma IterateInv(p: Pair, t: Turn)
    requires PairInv(p) && TurnPossible(p, t)
    ensures PairInv(Iterate(p, t))
  {
    DriveInv(p.fsm12, t.o12);
    DriveInv(p.fsm21, t.o21);
  }

  /** The polling thread driving both machines time after time. */
  function RunPoll(a: Machine, b: Machine, os: seq<(Outcome, Outcome)>): Option<(Machine, Machine)>
    requires Inv(a) && Inv(b)
    decreases |os|
  {
    if os == [] then Some((a, b))
    else if !Possible(a, os[0].0) || !Possible(b, os[0].1) then None
    else
      DriveInv(a, os[0].0);
      DriveInv(b, os[0].1);
      RunPoll(Drive(a, os[0].0), Drive(b, os[0].1), os[1..])
  }

  lemma IterateIsPoll(p: Pair, t: Turn, a: Machine, b: Machine)
    requires PairInv(p) && TurnPossible(p, t) && t.sel.Ready?
    requires Inv(a) && Inv(b) && Same(p.fsm12, a) && Same(p.fsm21, b)
    ensures Possible(a, AsPolled(p, t).0) && Possible(b, AsPolled(p, t).1)
    ensures Same(Iterate(p, t).fsm12, Drive(a, AsPolled(p, t).0))
    ensures Same(Iterate(p, t).fsm21, Drive(b, AsPolled(p, t).1))
  {
    if Driven12(p, t.sel) {
      DriveSame(p.fsm12, a, t.o12);
    } else {
      PollingIdles(a);
    }
    if Driven21(p, t.sel) {
      DriveSame(p.fsm21, b, t.o21);
    } else {
      PollingIdles(b);
    }
  }

  /** The select relay refines the polling one: whatever it does, the polling thread can do, byte for byte. */
  lemma {:induction false} SelectRefinesPolling(p: Pair, ts: seq<Turn>, a: Machine, b: Machine)
      returns (os: seq<(Outcome, Outcome)>)
    requires PairInv(p) && RunSelect(p, ts).Some?
    requires Inv(a) && Inv(b) && Same(p.fsm12, a) && Same(p.fsm21, b)
    ensures RunPoll(a, b, os).Some?
    ensures Same(RunSelect(p, ts).value.fsm12, RunPoll(a, b, os).value.0)
    ensures Same(RunSelect(p, ts).value.fsm21, RunPoll(a, b, os).value.1)
    decreases |ts|
  {
    os := [];
    if ts != [] {
      var t := ts[0];
      IterateInv(p, t);
      if t.sel.Interrupted? {
        assert Iterate(p, t) == p;
        os := SelectRefinesPolling(p, ts[1..], a, b);
      } else {
        var o := AsPolled(p, t);
        IterateIsPoll(p, t, a, b);
        DriveInv(a, o.0);
        DriveInv(b, o.1);
        var rest := SelectRefinesPolling(Iterate(p, t), ts[1..], Drive(a, o.0), Drive(b, o.1));
        os := [o] + rest;
        assert os[1..] == rest;
      }
    }
  }

  /** The delivery invariant carries over to every run of the select relay. */
  lemma {:induction false} SelectDelivers(p: Pair, ts: seq<Turn>)
    requires PairInv(p) && RunSelect(p, ts).Some?
    ensures PairInv(RunSelect(p, ts).value)
    decreases |ts|
  {
    if ts != [] {
      IterateInv(p, ts[0]);
      SelectDelivers(Iterate(p, ts[0]), ts[1..]);
    }
  }

  /** The descriptor sets, built anew at every turn from what each machine waits for. */
  method Watched(fsm12: Direction, fsm21: Direction, fd1: nat, fd2: nat) returns (rset: set<nat>, wset: set<nat>)
    ensures rset == ReadSet(Pair(fsm12.View(), fsm21.View(), fd1, fd2))
    ensures wset == WriteSet(Pair(fsm12.View(), fsm21.View(), fd1, fd2))
  {
    rset, wset := {}, {};
    if fsm12.state == STATE_R {
      rset := rset + {fd1};
    }
    if fsm12.state == STATE_W {
      wset := wset + {fd2};
    }
    if fsm21.state == STATE_R {
      rset := rset + {fd2};
    }
    if fsm21.state == STATE_W {
      wset := wset + {fd1};
    }
  }

  /** The part of the loop after select: see what it reported and drive the machines. */
  method RelayTurn(fsm12: Direction, fsm21: Direction, fd1: nat, fd2: nat, t: Turn)
    requires fsm12 != fsm21 && fsm12.buf != fsm21.buf
    requires PairInv(Pair(fsm12.View(), fsm21.View(), fd1, fd2))
    requires TurnPossible(Pair(fsm12.View(), fsm21.View(), fd1, fd2), t)
    modifies fsm12, fsm12.buf, fsm21, fsm21.buf
    ensures Pair(fsm12.View(), fsm21.View(), fd1, fd2) == Iterate(old(Pair(fsm12.View(), fsm21.View(), fd1, fd2)), t)
  {
    var rset, wset := Watched(fsm12, fsm21, fd1, fd2);
    if fsm12.state == STATE_R || fsm12.state == STATE_W || fsm21.state == STATE_R || fsm21.state == STATE_W {
      if t.sel.Interrupted? {
        return;
      }
      // select leaves in the sets what is ready of what was in them.
      rset, wset := t.sel.rset, t.sel.wset;
    }
    if fd1 in rset || fd2 in wset || fsm12.state == STATE_Ex || fsm12.state == STATE_T {
      fsm12.FsmDriver(t.o12);
    }
    if fd2 in rset || fd1 in wset || fsm21.state == STATE_Ex || fsm21.state == STATE_T {
      fsm21.FsmDriver(t.o21);
    }
  }

  /** The loop of the source, for as long as the given answers of its environment last. */
  method RelayLoop(fsm12: Direction, fsm21: Direction, fd1: nat, fd2: nat, ts: seq<Turn>) returns (ended: bool)
    requires fsm12 != fsm21 && fsm12.buf != fsm21.buf
    requires PairInv(Pair(fsm12.View(), fsm21.View(), fd1, fd2))
    requires EnvironmentFits(Pair(fsm12.View(), fsm21.View(), fd1, fd2), ts)
    modifies fsm12, fsm12.buf, fsm21, fsm21.buf
    ensures Pair(fsm12.View(), fsm21.View(), fd1, fd2)
      == AfterTurns(old(Pair(fsm12.View(), fsm21.View(), fd1, fd2)), ts)
    ensures ended <==> fsm12.state == STATE_T && fsm21.state == STATE_T
  {
    ghost var p := Pair(fsm12.View(), fsm21.View(), fd1, fd2);
    ghost var goal := AfterTurns(p, ts);
    var i := 0;
    while (fsm12.state != STATE_T || fsm21.state != STATE_T) && i < |ts|
      invariant 0 <= i <= |ts|
      invariant p == Pair(fsm12.View(), fsm21.View(), fd1, fd2) && PairInv(p)
      invariant EnvironmentFits(p, ts[i..]) && AfterTurns(p, ts[i..]) == goal
    {
      var t := ts[i];
      IterateInv(p, t);
      RelayTurn(fsm12, fsm21, fd1, fd2, t);
      p, i := Iterate(p, t), i + 1;
    }
    ended := fsm12.state == STATE_T && fsm21.state == STATE_T;
  }

  /** Every turn the loop takes gets a possible answer. */
  ghost predicate EnvironmentFits(p: Pair, ts: seq<Turn>)
    requires PairInv(p)
    decreases |ts|
  {
    ts != [] && (Live(p.fsm12) || Live(p.fsm21)) ==>
      TurnPossible(p, ts[0]) && (IterateInv(p, ts[0]); EnvironmentFits(Iterate(p, ts[0]), ts[1..]))
  }

  /** The pair when the loop has ended or the answers are used up. */
  ghost function AfterTurns(p: Pair, ts: seq<Turn>): Pair
    requires PairInv(p) && EnvironmentFits(p, ts)
    decreases |ts|
  {
    if ts == [] || !(Live(p.fsm12) || Live(p.fsm21)) then p
    else
      IterateInv(p, ts[0]);
      AfterTurns(Iterate(p, ts[0]), ts[1..])
  }
}
