/** The character device FIFO with one producer and one consumer that share
    `head` and `tail` without a lock, as interleaved loads and stores. */
module Ring {

  const N: nat := 8192

  type Byte = b: nat | b < 256

  function Succ(i: nat): nat {
    if i + 1 < N then i + 1 else 0
  }

  /** Where the producer stands inside `putc`. */
  datatype Producer =
    | Outside
    | HasTail(c: Byte, cur: nat)                // tail loaded
    | HasRoom(c: Byte, cur: nat, next: nat)     // head loaded, not full
    | Stored(c: Byte, cur: nat, next: nat)      // byte stored

  /** Where the consumer stands inside `getc`; the two loads of the emptiness
      test may happen in either order. */
  datatype Consumer =
    | Away
    | HeadFirst(h: nat)
    | TailFirst(t: nat)
    | NonEmpty                     // head and tail differed
    | HasHead(cur: nat)            // head loaded again
    | HasByte(cur: nat, c: Byte)   // byte loaded

  /** The shared ring, the two program points, and the bytes produced (their
      `tail` store done) and consumed (their `head` store done) so far. */
  datatype State = State(buf: seq<Byte>, head: nat, tail: nat, producer: Producer, consumer: Consumer,
                         produced: seq<Byte>, consumed: seq<Byte>)

  datatype Step =
    | PutLoadTail(c: Byte) | PutLoadHead | PutStoreByte | PutStoreTail
    | GetLoadHead | GetLoadTail | GetTestTail | GetTestHead | GetReloadHead | GetLoadByte | GetStoreHead

  predicate Enabled(s: State, step: Step) {
    match step
    case PutLoadTail(_) => s.producer.Outside?
    case PutLoadHead => s.producer.HasTail?
    case PutStoreByte => s.producer.HasRoom?
    case PutStoreTail => s.producer.Stored?
    case GetLoadHead => s.consumer.Away?
    case GetLoadTail => s.consumer.Away?
    case GetTestTail => s.consumer.HeadFirst?
    case GetTestHead => s.consumer.TailFirst?
    case GetReloadHead => s.consumer.NonEmpty?
    case GetLoadByte => s.consumer.HasHead?
    case GetStoreHead => s.consumer.HasByte?
  }

  /** One load or store; a test that fails ends the call with -1. */
  function Next(s: State, step: Step): State
    requires Enabled(s, step) && |s.buf| == N
  {
    match step
    case PutLoadTail(c) => s.(producer := HasTail(c, s.tail))
    case PutLoadHead =>
      var next := Succ(s.producer.cur);
      if s.head == next then s.(producer := Outside)
      else s.(producer := HasRoom(s.producer.c, s.producer.cur, next))
    case PutStoreByte =>
      var p := s.producer;
      s.(buf := if p.cur < N then s.buf[p.cur := p.c] else s.buf, producer := Stored(p.c, p.cur, p.next))
    case PutStoreTail =>
      s.(tail := s.producer.next, producer := Outside, produced := s.produced + [s.producer.c])
    case GetLoadHead => s.(consumer := HeadFirst(s.head))
    case GetLoadTail => s.(consumer := TailFirst(s.tail))
    case GetTestTail => s.(consumer := if s.consumer.h == s.tail then Away else NonEmpty)
    case GetTestHead => s.(consumer := if s.head == s.consumer.t then Away else NonEmpty)
    case GetReloadHead => s.(consumer := HasHead(s.head))
    case GetLoadByte =>
      s.(consumer := HasByte(s.consumer.cur, if s.consumer.cur < N then s.buf[s.consumer.cur] else 0))
    case GetStoreHead =>
      s.(head := Succ(s.consumer.cur), consumer := Away, consumed := s.consumed + [s.consumer.c])
  }

  // ---- What the ring holds -------------------------------------------------------------

  /** The number of bytes between head and tail. */
  function Used(head: nat, tail: nat): nat
    requires head < N && tail < N
  {
    (tail + N - head) % N
  }

  /** Slot of the i-th unread byte. */
  function Slot(head: nat, i: nat): nat {
    (head + i) % N
  }

  /** The unread bytes, oldest first. */
  function Buffered(s: State): (q: seq<Byte>)
    requires |s.buf| == N && s.head < N && s.tail < N
    ensures |q| == Used(s.head, s.tail)
  {
    seq(Used(s.head, s.tail), i requires 0 <= i < Used(s.head, s.tail) => s.buf[Slot(s.head, i)])
  }

  predicate Sane(s: State) {
    |s.buf| == N && s.head < N && s.tail < N
  }

  ghost predicate Inv(s: State) {
    && Sane(s)
    && s.consumed + Buffered(s) == s.produced
    && (match s.producer
        case Outside => true
        case HasTail(_, cur) => cur == s.tail
        case HasRoom(_, cur, next) => cur == s.tail && next == Succ(cur) && Used(s.head, s.tail) < N - 1
        case Stored(c, cur, next) =>
          cur == s.tail && next == Succ(cur) && Used(s.head, s.tail) < N - 1 && s.buf[cur] == c)
    && (match s.consumer
        case Away => true
        case HeadFirst(h) => h == s.head
        case TailFirst(t) => t < N && Used(s.head, t) <= Used(s.head, s.tail)
        case NonEmpty => Used(s.head, s.tail) > 0
        case HasHead(cur) => cur == s.head && Used(s.head, s.tail) > 0
        case HasByte(cur, c) => cur == s.head && Used(s.head, s.tail) > 0 && c == s.buf[cur])
  }

  function Initial(buf: seq<Byte>): State {
    State(buf, 0, 0, Outside, Away, [], [])
  }

  lemma InitialInv(buf: seq<Byte>)
    requires |buf| == N
    ensures Inv(Initial(buf))
  {
  }

  // ---- Arithmetic of the ring -----------------------------------------------------------

  lemma UsedSteps(head: nat, tail: nat)
    requires head < N && tail < N
    ensures Used(head, tail) < N - 1 ==> Used(head, Succ(tail)) == Used(head, tail) + 1
    ensures Used(head, tail) > 0 ==> Used(Succ(head), tail) == Used(head, tail) - 1
    ensures Used(head, tail) == N - 1 <==> Succ(tail) == head
    ensures Used(head, tail) == 0 <==> head == tail
    ensures Slot(head, Used(head, tail)) == tail
  {
  }

  lemma SlotsDistinct(head: nat, tail: nat, i: nat)
    requires head < N && tail < N && i < Used(head, tail)
    ensures Slot(head, i) != tail && Slot(head, i) < N
    ensures i > 0 ==> Slot(Succ(head), i - 1) == Slot(head, i)
    ensures Slot(head, 0) == head
  {
  }

  // ---- Steps ------------------------------------------------------------------------------

  /** Storing a byte never touches an unread slot. */
  lemma StoreHitsFreeSlot(s: State, i: nat)
    requires Inv(s) && s.producer.HasRoom? && i < Used(s.head, s.tail)
    ensures Slot(s.head, i) != s.producer.cur
  {
    SlotsDistinct(s.head, s.tail, i);
  }

  lemma BufferedAfterByte(s: State, c: Byte)
    requires Sane(s)
    ensures Buffered(s.(buf := s.buf[s.tail := c])) == Buffered(s)
  {
    forall i | 0 <= i < Used(s.head, s.tail)
      ensures s.buf[s.tail := c][Slot(s.head, i)] == s.buf[Slot(s.head, i)]
    {
      SlotsDistinct(s.head, s.tail, i);
    }
  }

  lemma BufferedAfterTail(s: State)
    requires Sane(s) && Used(s.head, s.tail) < N - 1
    ensures Buffered(s.(tail := Succ(s.tail))) == Buffered(s) + [s.buf[s.tail]]
  {
    UsedSteps(s.head, s.tail);
  }

  lemma BufferedAfterHead(s: State)
    requires Sane(s) && Used(s.head, s.tail) > 0
    ensures Buffered(s) == [s.buf[s.head]] + Buffered(s.(head := Succ(s.head)))
  {
    UsedSteps(s.head, s.tail);
    var t := s.(head := Succ(s.head));
    assert Buffered(s)[0] == s.buf[s.head] by { SlotsDistinct(s.head, s.tail, 0); }
    forall i | 0 < i < Used(s.head, s.tail)
      ensures Buffered(s)[i] == Buffered(t)[i - 1]
    {
      SlotsDistinct(s.head, s.tail, i);
    }
  }

  /** A head move keeps an earlier tail reading below the current tail. */
  lemma TailReadingStays(head: nat, t: nat, tail: nat)
    requires head < N && t < N && tail < N && Used(head, t) <= Used(head, tail) < N - 1
    ensures Used(head, t) <= Used(head, Succ(tail))
  {
    UsedSteps(head, tail);
  }

  lemma ProducerKeepsInv(s: State, step: Step)
    requires Inv(s) && Enabled(s, step) &&
        (step.PutLoadTail? || step.PutLoadHead? || step.PutStoreByte? || step.PutStoreTail?)
    ensures Inv(Next(s, step))
  {
    UsedSteps(s.head, s.tail);
    match step
    case PutLoadTail(_) =>
    case PutLoadHead =>
    case PutStoreByte =>
      BufferedAfterByte(s, s.producer.c);
    case PutStoreTail =>
      BufferedAfterTail(s);
      var t := Next(s, step);
      assert Buffered(t) == Buffered(s.(tail := Succ(s.tail)));
      assert s.consumed + (Buffered(s) + [s.producer.c]) == s.produced + [s.producer.c];
      if s.consumer.TailFirst? { TailReadingStays(s.head, s.consumer.t, s.tail); }
  }

  lemma ConsumerKeepsInv(s: State, step: Step)
    requires Inv(s) && Enabled(s, step) &&
        !(step.PutLoadTail? || step.PutLoadHead? || step.PutStoreByte? || step.PutStoreTail?)
    ensures Inv(Next(s, step))
  {
    UsedSteps(s.head, s.tail);
    match step
    case GetStoreHead =>
      BufferedAfterHead(s);
      var t := Next(s, step);
      assert Buffered(t) == Buffered(s.(head := Succ(s.head)));
      assert s.consumed + ([s.consumer.c] + Buffered(t)) == s.consumed + [s.consumer.c] + Buffered(t);
    case GetTestHead =>
      UsedSteps(s.head, s.consumer.t);
    case _ =>
  }

  lemma StepKeepsInv(s: State, step: Step)
    requires Inv(s) && Enabled(s, step)
    ensures Inv(Next(s, step))
  {
    if step.PutLoadTail? || step.PutLoadHead? || step.PutStoreByte? || step.PutStoreTail? {
      ProducerKeepsInv(s, step);
    } else {
      ConsumerKeepsInv(s, step);
    }
  }

  /** A full report, and an empty report that loads the head first, is given exactly
      when the ring is full or empty at the load that decides it. */
  lemma RefusalsAreTrue(s: State, step: Step)
    requires Inv(s) && Enabled(s, step)
    ensures step.PutLoadHead? ==> (Next(s, step).producer.Outside? <==> |s.produced| - |s.consumed| == N - 1)
    ensures step.GetTestTail? ==> (Next(s, step).consumer.Away? <==> s.produced == s.consumed)
  {
    UsedSteps(s.head, s.tail);
    EmptyMeans(s);
  }

  /** An empty ring is one whose bytes have all been consumed. */
  lemma EmptyMeans(s: State)
    requires Inv(s)
    ensures |s.produced| == |s.consumed| + Used(s.head, s.tail)
    ensures s.head == s.tail <==> s.produced == s.consumed
  {
    UsedSteps(s.head, s.tail);
    assert |s.consumed + Buffered(s)| == |s.produced|;
    assert Used(s.head, s.tail) == 0 ==> Buffered(s) == [];
  }

  // ---- Every interleaving --------------------------------------------------------------------

  predicate IsRun(s: State, steps: seq<Step>)
    requires |s.buf| == N
    decreases |steps|
  {
    steps == [] || (Enabled(s, steps[0]) && |Next(s, steps[0]).buf| == N && IsRun(Next(s, steps[0]), steps[1..]))
  }

  function After(s: State, steps: seq<Step>): State
    requires |s.buf| == N && IsRun(s, steps)
    decreases |steps|
  {
    if steps == [] then s else After(Next(s, steps[0]), steps[1..])
  }

  /** For every interleaving of loads and stores, the bytes consumed followed by
      the bytes buffered are the bytes produced, and at most 8191 are buffered. */
  lemma {:induction false} NothingLostOrReordered(s: State, steps: seq<Step>)
    requires Inv(s) && IsRun(s, steps)
    ensures Inv(After(s, steps))
    ensures var t := After(s, steps);
      t.consumed + Buffered(t) == t.produced && |Buffered(t)| <= N - 1
    decreases |steps|
  {
    if steps != [] {
      StepKeepsInv(s, steps[0]);
      NothingLostOrReordered(Next(s, steps[0]), steps[1..]);
    }
  }

  // ---- The emptiness test that loads the tail first -------------------------------------------

  /** How many bytes the producer published. */
  function Published(steps: seq<Step>): nat {
    if steps == [] then 0 else (if steps[0].PutStoreTail? then 1 else 0) + Published(steps[1..])
  }

  /** Between the consumer's two loads only the producer moves. */
  lemma {:induction false} WhileTesting(s: State, mid: seq<Step>)
    requires Inv(s) && s.consumer.TailFirst? && IsRun(s, mid) && GetTestHead !in mid
    ensures var u := After(s, mid);
      && Inv(u) && u.consumer == s.consumer && u.head == s.head && u.consumed == s.consumed
      && |u.produced| == |s.produced| + Published(mid)
    decreases |mid|
  {
    if mid != [] {
      assert mid[0] in mid;
      StepKeepsInv(s, mid[0]);
      WhileTesting(Next(s, mid[0]), mid[1..]);
    }
  }

  /** Loading the tail first, whatever happens before the head is loaded: the call reports empty
      exactly when the ring was empty at the tail load, and such a report is still true at the
      head load exactly when no byte was published in between. */
  lemma TailFirstReport(s: State, mid: seq<Step>)
    requires Inv(s) && s.consumer.Away? && IsRun(Next(s, GetLoadTail), mid) && GetTestHead !in mid
    ensures var u := After(Next(s, GetLoadTail), mid);
      && Inv(u) && Enabled(u, GetTestHead)
      && (Next(u, GetTestHead).consumer.Away? <==> s.produced == s.consumed)
      && (Next(u, GetTestHead).consumer.Away? ==> (u.produced == u.consumed <==> Published(mid) == 0))
  {
    StepKeepsInv(s, GetLoadTail);
    var s1 := Next(s, GetLoadTail);
    WhileTesting(s1, mid);
    EmptyMeans(s);
    EmptyMeans(After(s1, mid));
  }

  lemma IsRunStep(s: State, step: Step, rest: seq<Step>)
    requires Inv(s) && Enabled(s, step)
    ensures Inv(Next(s, step))
    ensures IsRun(s, [step] + rest) <==> IsRun(Next(s, step), rest)
    ensures IsRun(s, [step] + rest) ==> After(s, [step] + rest) == After(Next(s, step), rest)
  {
    StepKeepsInv(s, step);
    assert ([step] + rest)[1..] == rest;
  }

  /** Such a stale report: the byte 5 is published between the two loads. */
  lemma StaleEmptyReport(buf: seq<Byte>)
    requires |buf| == N
    ensures var s := Next(Initial(buf), GetLoadTail);
      var mid := [PutLoadTail(5), PutLoadHead, PutStoreByte, PutStoreTail];
      && IsRun(s, mid)
      && var u := After(s, mid);
         u.produced == [5] && u.consumed == [] && Enabled(u, GetTestHead) && Next(u, GetTestHead).consumer.Away?
  {
    InitialInv(buf);
    StepKeepsInv(Initial(buf), GetLoadTail);
    var s := Next(Initial(buf), GetLoadTail);
    var s1 := Next(s, PutLoadTail(5));
    IsRunStep(s, PutLoadTail(5), [PutLoadHead, PutStoreByte, PutStoreTail]);
    var s2 := Next(s1, PutLoadHead);
    IsRunStep(s1, PutLoadHead, [PutStoreByte, PutStoreTail]);
    var s3 := Next(s2, PutStoreByte);
    IsRunStep(s2, PutStoreByte, [PutStoreTail]);
    IsRunStep(s3, PutStoreTail, []);
    var mid := [PutLoadTail(5), PutLoadHead, PutStoreByte, PutStoreTail];
    assert mid == [PutLoadTail(5)] + [PutLoadHead, PutStoreByte, PutStoreTail];
    assert [PutLoadHead, PutStoreByte, PutStoreTail] == [PutLoadHead] + [PutStoreByte, PutStoreTail];
    assert [PutStoreByte, PutStoreTail] == [PutStoreByte] + [PutStoreTail] && [PutStoreTail] == [PutStoreTail] + [];
  }

  // ---- The sequential operations ------------------------------------------------------------

  class Fifo {
    const buf: array<Byte>
    var head: nat
    var tail: nat

    constructor ()
      ensures Valid() && fresh(buf) && Contents() == []
    {
      buf := new Byte[N](_ => 0);
      head, tail := 0, 0;
    }

    ghost predicate Valid()
      reads this
    {
      buf.Length == N && head < N && tail < N
    }

    ghost function Contents(): seq<Byte>
      requires Valid()
      reads this, buf
    {
      Buffered(State(buf[..], head, tail, Outside, Away, [], []))
    }

    method PutC(c: Byte) returns (r: int)
      requires Valid()
      modifies `tail, buf
      ensures Valid()
      ensures |old(Contents())| == N - 1 ==> r == -1 && Contents() == old(Contents())
      ensures |old(Contents())| < N - 1 ==> r == c && Contents() == old(Contents()) + [c]
    {
      UsedSteps(head, tail);
      var cur := tail;
      var next := if cur + 1 < N then cur + 1 else 0;
      if head == next {
        return -1;
      }
      ghost var s := State(buf[..], head, tail, Outside, Away, [], []);
      BufferedAfterByte(s, c);
      buf[cur] := c;
      assert buf[..] == s.buf[cur := c];
      BufferedAfterTail(s.(buf := buf[..]));
      tail := next;
      return c;
    }

    method GetC() returns (r: int)
      requires Valid()
      modifies `head
      ensures Valid()
      ensures old(Contents()) == [] ==> r == -1 && Contents() == []
      ensures old(Contents()) != [] ==> [r] + Contents() == old(Contents())
    {
      UsedSteps(head, tail);
      if head == tail {
        return -1;
      }
      BufferedAfterHead(State(buf[..], head, tail, Outside, Away, [], []));
      var cur := head;
      var next := if cur + 1 < N then cur + 1 else 0;
      r := buf[cur];
      head := next;
    }

    /** The queued length, as computed from the two indices. */
    method Length() returns (n: nat)
      requires Valid()
      ensures n == |Contents()|
    {
      if tail >= head {
        return tail - head;
      } else {
        return N + tail - head;
      }
    }

    method Available() returns (ok: bool)
      requires Valid()
      ensures ok <==> |Contents()| < N - 1
    {
      var n := Length();
      return n < N - 1;
    }
  }
}
