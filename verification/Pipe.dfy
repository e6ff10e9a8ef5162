/**
Pipes (pipe.c).  A pipe is a queue of at most PIPESIZE bytes; each stretch of pipewrite, piperead or
pipeclose between taking the lock and giving it up (by returning or sleeping) is one event.  The class
shows that the ring buffer with its wrapping 32-bit counters does exactly these events.
*/
module Pipe {
  const PIPESIZE: int := 512
  const UINT: int := 0x1_0000_0000

  /** accepted and delivered are all bytes ever put in and taken out; readers and writers are asleep. */
  datatype View = View(accepted: seq<int>, delivered: seq<int>, readopen: bool, writeopen: bool, readers: set<int>, writers: set<int>)

  datatype Outcome = Returns(n: int) | Fails | Sleeps

  function InFlight(v: View): int {
    |v.accepted| - |v.delivered|
  }

  function Min(a: int, b: int): int {
    if a < b then a else b
  }

  /** What one event of a writer with these bytes left puts in. */
  function Fits(v: View, rest: seq<int>): int {
    Min(|rest|, PIPESIZE - InFlight(v))
  }

  function WriteOutcome(v: View, rest: seq<int>, killed: bool): Outcome {
    if Fits(v, rest) == |rest| then Returns(|rest|)
    else if !v.readopen || killed then Fails
    else Sleeps
  }

  function Write(v: View, pid: int, rest: seq<int>, killed: bool): View
    requires 0 <= Fits(v, rest)
  {
    var o := WriteOutcome(v, rest, killed);
    v.(accepted := v.accepted + rest[..Fits(v, rest)],
       readers := if o.Fails? then v.readers else {},
       writers := if o.Sleeps? then v.writers + {pid} else v.writers)
  }

  function ReadOutcome(v: View, n: int, killed: bool): Outcome {
    if InFlight(v) == 0 && v.writeopen then (if killed then Fails else Sleeps)
    else Returns(if n < 0 then 0 else Min(n, InFlight(v)))
  }

  function Read(v: View, pid: int, n: int, killed: bool): View
    requires v.delivered <= v.accepted
  {
    match ReadOutcome(v, n, killed)
    case Fails => v
    case Sleeps => v.(readers := v.readers + {pid})
    case Returns(k) => v.(delivered := v.accepted[..|v.delivered| + k], writers := {})
  }

  function Close(v: View, writable: bool): View {
    if writable then v.(writeopen := false, readers := {}) else v.(readopen := false, writers := {})
  }

  /** kill takes a process off whatever it sleeps on. */
  function Kill(v: View, pid: int): View {
    v.(readers := v.readers - {pid}, writers := v.writers - {pid})
  }

  // ----- whole runs -----

  datatype Event =
    | WriteEv(pid: int, rest: seq<int>, killed: bool)
    | ReadEv(pid: int, n: int, killed: bool)
    | CloseEv(writable: bool)
    | KillEv(pid: int)

  /** A queue: what came out is the beginning of what went in, and at most PIPESIZE bytes are on the way. */
  predicate Fifo(v: View) {
    v.delivered <= v.accepted && InFlight(v) <= PIPESIZE
  }

  function Apply(v: View, e: Event): (r: View)
    requires Fifo(v)
    ensures Fifo(r)
  {
    match e
    case WriteEv(pid, rest, killed) => Write(v, pid, rest, killed)
    case ReadEv(pid, n, killed) => Read(v, pid, n, killed)
    case CloseEv(writable) => Close(v, writable)
    case KillEv(pid) => Kill(v, pid)
  }

  function Run(v: View, es: seq<Event>): (r: View)
    requires Fifo(v)
    ensures Fifo(r)
  {
    if es == [] then v else Apply(Run(v, es[..|es| - 1]), es[|es| - 1])
  }

  const EMPTY: View := View([], [], true, true, {}, {})

  /** What the readers of a run have been given, in the order they were given it. */
  ghost function Got(v: View, es: seq<Event>): (r: seq<int>)
    requires Fifo(v)
  {
    if es == [] then []
    else
      var u, e := Run(v, es[..|es| - 1]), es[|es| - 1];
      Got(v, es[..|es| - 1]) +
      if e.ReadEv? && ReadOutcome(u, e.n, e.killed).Returns?
      then u.accepted[|u.delivered|..|u.delivered| + ReadOutcome(u, e.n, e.killed).n] else []
  }

  /** What the writers of a run have put in. */
  ghost function Put(v: View, es: seq<Event>): (r: seq<int>)
    requires Fifo(v)
  {
    if es == [] then []
    else
      var u, e := Run(v, es[..|es| - 1]), es[|es| - 1];
      Put(v, es[..|es| - 1]) + if e.WriteEv? then e.rest[..Fits(u, e.rest)] else []
  }

  /** In every interleaving, the bytes the readers got are a prefix of the bytes the writers put, at most 512 behind. */
  lemma {:induction false} FifoTheorem(es: seq<Event>)
    ensures Got(EMPTY, es) == Run(EMPTY, es).delivered && Put(EMPTY, es) == Run(EMPTY, es).accepted
    ensures Got(EMPTY, es) <= Put(EMPTY, es) && |Put(EMPTY, es)| - |Got(EMPTY, es)| <= PIPESIZE
  {
    hide Apply;
    if es != [] {
      FifoTheorem(es[..|es| - 1]);
      EventEffect(Run(EMPTY, es[..|es| - 1]), es[|es| - 1]);
    }
  }

  /** What one event adds to either end of the queue. */
  lemma EventEffect(u: View, e: Event)
    requires Fifo(u)
    ensures Apply(u, e).accepted == u.accepted + if e.WriteEv? then e.rest[..Fits(u, e.rest)] else []
    ensures Apply(u, e).delivered == u.delivered +
            if e.ReadEv? && ReadOutcome(u, e.n, e.killed).Returns?
            then u.accepted[|u.delivered|..|u.delivered| + ReadOutcome(u, e.n, e.killed).n] else []
  {
    assert u.accepted[..|u.delivered|] == u.delivered;
    if e.ReadEv? && ReadOutcome(u, e.n, e.killed).Returns? {
      var k := ReadOutcome(u, e.n, e.killed).n;
      assert u.accepted[..|u.delivered| + k] == u.accepted[..|u.delivered|] + u.accepted[|u.delivered|..|u.delivered| + k];
    }
  }

  /**
  piperead sleeps or fails only on an empty pipe with its write end open; otherwise it gives all n bytes,
  or all that are there.
  */
  lemma ReadLaw(v: View, pid: int, n: int, killed: bool)
    requires Fifo(v)
    ensures var o, r := ReadOutcome(v, n, killed), Read(v, pid, n, killed);
            && (o.Sleeps? <==> v.delivered == v.accepted && v.writeopen && !killed)
            && (o.Fails? <==> v.delivered == v.accepted && v.writeopen && killed)
            && (o.Fails? ==> r == v)
            && (o.Sleeps? ==> r == v.(readers := v.readers + {pid}))
            && (o.Returns? ==>
                  && r == v.(delivered := r.delivered, writers := {})
                  && v.delivered <= r.delivered <= v.accepted && |r.delivered| == |v.delivered| + o.n
                  && (n <= 0 ==> o.n == 0) && (n > 0 ==> o.n <= n && (o.n < n ==> r.delivered == v.accepted)))
  {
    assert v.accepted[..|v.accepted|] == v.accepted;
    if |v.delivered| == |v.accepted| {
      assert v.delivered == v.accepted;
    }
  }

  /** pipewrite puts in bytes until all are in or the pipe holds PIPESIZE; then it fails or sleeps. */
  lemma WriteLaw(v: View, pid: int, rest: seq<int>, killed: bool)
    requires Fifo(v)
    ensures var o, r, k := WriteOutcome(v, rest, killed), Write(v, pid, rest, killed), Fits(v, rest);
            && 0 <= k <= |rest| && r.accepted == v.accepted + rest[..k]
            && (k < |rest| ==> |r.accepted| == |v.delivered| + 512) && |r.accepted| <= |v.delivered| + 512
            && (o == Returns(|rest|) <==> k == |rest|)
            && (o.Fails? <==> k < |rest| && (!v.readopen || killed))
            && (o.Sleeps? <==> k < |rest| && v.readopen && !killed)
            && r == v.(accepted := r.accepted, readers := if o.Fails? then v.readers else {},
                       writers := if o.Sleeps? then v.writers + {pid} else v.writers)
  {
  }

  /** The write end closed wakes the readers, the read end closed the writers. */
  lemma CloseLaw(v: View, pid: int)
    ensures Close(v, true) == v.(writeopen := false, readers := {}) && Close(v, false) == v.(readopen := false, writers := {})
    ensures pid !in Kill(v, pid).readers + Kill(v, pid).writers && Kill(v, pid) == v.(readers := v.readers - {pid}, writers := v.writers - {pid})
  {
  }

  /** k rounds in which a writer puts in what is left of msg and a reader then asks for n bytes. */
  ghost function Rounds(msg: seq<int>, n: int, k: nat): (v: View)
    ensures Fifo(v)
  {
    if k == 0 then EMPTY
    else
      var u := Rounds(msg, n, k - 1);
      var w := Apply(u, WriteEv(1, if |u.accepted| <= |msg| then msg[|u.accepted|..] else [], false));
      Apply(w, ReadEv(2, n, false))
  }

  lemma RoundEffect(v: View, msg: seq<int>, n: int)
    requires Fifo(v) && v.accepted <= msg && v.readopen && v.writeopen && n > 0
    ensures var w := Apply(v, WriteEv(1, msg[|v.accepted|..], false));
            var u := Apply(w, ReadEv(2, n, false));
            && u.readopen && u.writeopen && u.accepted <= msg
            && |u.delivered| == Min(|msg|, |v.delivered| + Min(n, PIPESIZE))
  {
    var rest := msg[|v.accepted|..];
    var w := Apply(v, WriteEv(1, rest, false));
    WriteLaw(v, 1, rest, false);
    assert v.accepted == msg[..|v.accepted|];
    assert w.accepted == msg[..|w.accepted|];
    ReadLaw(w, 2, n, false);
  }

  /** Nothing is held back: every round delivers Min(n, PIPESIZE) more bytes until the whole message is there. */
  lemma {:induction false} Transfer(msg: seq<int>, n: int, k: nat)
    requires n > 0
    ensures var v := Rounds(msg, n, k);
            && v.readopen && v.writeopen && v.accepted <= msg
            && v.delivered == msg[..Min(|msg|, k * Min(n, PIPESIZE))]
    decreases k
  {
    hide Apply;
    if k > 0 {
      Transfer(msg, n, k - 1);
      var u := Rounds(msg, n, k - 1);
      RoundEffect(u, msg, n);
      TimesNext(k, Min(n, PIPESIZE));
      var v := Rounds(msg, n, k);
      assert v.delivered == v.accepted[..|v.delivered|];
      assert v.accepted == msg[..|v.accepted|];
    }
  }

  lemma TimesNext(k: nat, m: int)
    requires k > 0
    ensures k * m == (k - 1) * m + m
  {
  }

  // ----- lost wakeups -----

  /** Whoever sleeps has reason to: readers because the pipe is empty and may fill, writers because it is full and may drain. */
  predicate Rested(v: View) {
    && (v.readers != {} ==> InFlight(v) == 0 && v.writeopen)
    && (v.writers != {} ==> InFlight(v) == PIPESIZE && v.readopen)
  }

  /** A writer that fills an empty pipe and then finds itself killed, or the read end closed, wakes nobody. */
  predicate Forgets(v: View, e: Event) {
    e.WriteEv? && v.readers != {} && |e.rest| > PIPESIZE && (e.killed || !v.readopen)
  }

  /** Exactly those writers lose a wakeup. */
  lemma WakeupLost(v: View, e: Event)
    requires Fifo(v) && Rested(v)
    ensures Rested(Apply(v, e)) <==> !Forgets(v, e)
  {
    var r := Apply(v, e);
    if e.WriteEv? {
      assert |r.accepted| == |v.accepted| + Fits(v, e.rest);
      if WriteOutcome(v, e.rest, e.killed).Sleeps? {
        assert e.pid in r.writers && InFlight(r) == PIPESIZE;
      }
    } else if e.ReadEv? && ReadOutcome(v, e.n, e.killed).Returns? {
      assert v.readers == {} || !v.writeopen || InFlight(v) > 0;
    }
  }

  ghost predicate Careful(es: seq<Event>) {
    forall i :: 0 <= i < |es| ==> !Forgets(Run(EMPTY, es[..i]), es[i])
  }

  /** No one ever sleeps on data or room that is there exactly in the runs without such writers. */
  lemma {:induction false} NoneForgotten(es: seq<Event>)
    ensures Careful(es) <==> forall i :: 0 <= i <= |es| ==> Rested(Run(EMPTY, es[..i]))
    decreases |es|
  {
    hide Forgets, Rested, Run;
    assert es[..|es|] == es;
    if es == [] {
      assert es[..0] == [];
      RunNone(EMPTY);
    } else {
      var init, e := es[..|es| - 1], es[|es| - 1];
      assert forall i :: 0 <= i <= |init| ==> init[..i] == es[..i];
      NoneForgotten(init);
      RunNext(EMPTY, es);
      assert Careful(es) <==> Careful(init) && !Forgets(Run(EMPTY, init), e);
      if Rested(Run(EMPTY, init)) {
        WakeupLost(Run(EMPTY, init), e);
      }
    }
  }

  lemma RunNone(v: View)
    requires Fifo(v)
    ensures Run(v, []) == v && (v == EMPTY ==> Rested(v))
  {
  }

  lemma RunNext(v: View, es: seq<Event>)
    requires Fifo(v) && es != []
    ensures Run(v, es) == Apply(Run(v, es[..|es| - 1]), es[|es| - 1])
  {
  }

  /** And with one, a reader sleeps on a full pipe. */
  lemma ForgottenReader(rest: seq<int>)
    requires |rest| > PIPESIZE
    ensures var v := Run(EMPTY, [ReadEv(1, 1, false), WriteEv(2, rest, true)]);
            v.readers == {1} && InFlight(v) == PIPESIZE
  {
    var es := [ReadEv(1, 1, false), WriteEv(2, rest, true)];
    assert es[..1] == [ReadEv(1, 1, false)] && es[..1][..0] == [];
    assert Run(EMPTY, es[..1]) == Apply(Run(EMPTY, []), ReadEv(1, 1, false));
  }

  // ----- the ring buffer -----

  /** The bytes on the way are in the buffer, each at its number modulo PIPESIZE. */
  ghost predicate Stored(data: seq<int>, accepted: seq<int>, r: nat) {
    |data| == PIPESIZE && forall k :: r <= k < |accepted| ==> data[k % 512] == accepted[k]
  }

  class Ring {
    const data: array<int>
    var nread: int
    var nwrite: int
    var readopen: bool
    var writeopen: bool
    ghost var v: View

    ghost predicate Valid()
      reads this, data
    {
      && data.Length == PIPESIZE
      && Fifo(v)
      && readopen == v.readopen && writeopen == v.writeopen
      && nread == |v.delivered| % 0x1_0000_0000
      && nwrite == |v.accepted| % 0x1_0000_0000
      && Stored(data[..], v.accepted, |v.delivered|)
    }

    /** pipealloc */
    constructor ()
      ensures Valid() && v == EMPTY && fresh(data)
    {
      data := new int[512];
      nread, nwrite, readopen, writeopen, v := 0, 0, true, true, EMPTY;
    }

    method PutByte(b: int)
      requires Valid() && InFlight(v) < PIPESIZE
      modifies this`nwrite, this`v, data
      ensures Valid() && v == old(v).(accepted := old(v).accepted + [b])
    {
      Wrap(|v.accepted|);
      SlotsApart(|v.delivered|, |v.accepted|);
      data[nwrite % 512] := b;
      nwrite := (nwrite + 1) % 0x1_0000_0000;
      v := v.(accepted := v.accepted + [b]);
    }

    /**
    pipewrite from taking the lock, at first or after sleeping with i bytes done, to giving it up.
    j is how many bytes are then done; woken says whether the readers were woken.
    */
    method WriteTurn(pid: int, addr: seq<int>, i: nat, killed: bool) returns (o: Outcome, j: nat, woken: bool)
      requires Valid() && i <= |addr|
      modifies this, data
      ensures Valid() && i <= j <= |addr|
      ensures v == Write(old(v), pid, addr[i..], killed) && j == i + Fits(old(v), addr[i..])
      ensures o == match WriteOutcome(old(v), addr[i..], killed) case Returns(_) => Returns(|addr|) case Fails => Fails case Sleeps => Sleeps
      ensures woken <==> !o.Fails?
    {
      hide Stored;
      ghost var v0 := v;
      j := i;
      while j < |addr|
        invariant i <= j <= |addr| && Valid()
        invariant v == v0.(accepted := v0.accepted + addr[i..j])
      {
        FullTest(|v.delivered|, |v.accepted|);
        if nwrite == (nread + 512) % 0x1_0000_0000 {
          assert addr[i..][..j - i] == addr[i..j];
          if !readopen || killed {
            return Fails, j, false;
          }
          v := v.(readers := {}, writers := v.writers + {pid});
          return Sleeps, j, true;
        }
        assert addr[i..j + 1] == addr[i..j] + [addr[j]];
        PutByte(addr[j]);
        j := j + 1;
      }
      assert addr[i..][..j - i] == addr[i..j];
      v := v.(readers := {});
      return Returns(|addr|), j, true;
    }

    method TakeByte() returns (b: int)
      requires Valid() && InFlight(v) > 0
      modifies this`nread, this`v
      ensures Valid() && b == old(v).accepted[|old(v).delivered|]
      ensures v == old(v).(delivered := old(v).delivered + [b])
    {
      Wrap(|v.delivered|);
      b := data[nread % 512];
      nread := (nread + 1) % 0x1_0000_0000;
      v := v.(delivered := v.delivered + [b]);
    }

    /** The copying loop of piperead. */
    method CopyOut(n: int) returns (out: seq<int>)
      requires Valid()
      modifies this`nread, this`v
      ensures Valid() && |out| == if n < 0 then 0 else Min(n, InFlight(old(v)))
      ensures v == old(v).(delivered := old(v).delivered + out)
    {
      hide Stored;
      ghost var v0 := v;
      out := [];
      var i := 0;
      while i < n
        invariant 0 <= i == |out| <= InFlight(v0) && Valid() && (i <= n || i == 0)
        invariant v == v0.(delivered := v0.delivered + out)
      {
        EmptyTest(|v.delivered|, |v.accepted|);
        if nread == nwrite {
          break;
        }
        var b := TakeByte();
        out := out + [b];
        i := i + 1;
      }
    }

    /** piperead from taking the lock to giving it up; out is what it copied. */
    method ReadTurn(pid: int, n: int, killed: bool) returns (o: Outcome, out: seq<int>)
      requires Valid()
      modifies this
      ensures Valid() && v == Read(old(v), pid, n, killed)
      ensures o == ReadOutcome(old(v), n, killed)
      ensures o.Returns? ==> v.delivered == old(v).delivered + out && |out| == o.n
    {
      hide Stored;
      out := [];
      EmptyTest(|v.delivered|, |v.accepted|);
      if nread == nwrite && writeopen {
        if killed {
          return Fails, [];
        }
        v := v.(readers := v.readers + {pid});
        return Sleeps, [];
      }
      out := CopyOut(n);
      v := v.(writers := {});
      return Returns(|out|), out;
    }

    /** pipeclose; gone says whether both ends are now closed and the page is freed. */
    method CloseEnd(writable: bool) returns (gone: bool)
      requires Valid()
      modifies this
      ensures Valid() && v == Close(old(v), writable)
      ensures gone <==> !v.readopen && !v.writeopen
    {
      if writable {
        writeopen := false;
      } else {
        readopen := false;
      }
      v := Close(v, writable);
      return !readopen && !writeopen;
    }
  }

  lemma Wrap(x: nat)
    ensures (x % 0x1_0000_0000) % 512 == x % 512
    ensures (x % 0x1_0000_0000 + 1) % 0x1_0000_0000 == (x + 1) % 0x1_0000_0000
  {
  }

  /** The full test is right although both counters wrap. */
  lemma FullTest(r: nat, w: nat)
    requires r <= w <= r + 512
    ensures w % 0x1_0000_0000 == (r % 0x1_0000_0000 + 512) % 0x1_0000_0000 <==> w == r + 512
  {
  }

  lemma EmptyTest(r: nat, w: nat)
    requires r <= w <= r + 512
    ensures r % 0x1_0000_0000 == w % 0x1_0000_0000 <==> w == r
  {
  }

  lemma SlotsApart(r: nat, w: nat)
    requires r <= w < r + 512
    ensures forall k :: r <= k < w ==> k % 512 != w % 512
  {
  }
}
