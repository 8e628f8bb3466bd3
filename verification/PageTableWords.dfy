/** Table entries as 64-bit words: what the kernel stores and what the hardware reads. */
module PageTableWords {
  import opened Basics
  import opened PageTableModel
  import opened PowersOfTwo

  /** One past the largest frame number: the hardware takes address bits 12 to 51. */
  const FRAMES: nat := 0x100_0000_0000

  function Bit(b: bool, weight: nat): nat {
    if b then weight else 0
  }

  function FlagBits(e: Entry): (r: nat)
    ensures r < 4096
  {
    Bit(e.present, 1) + Bit(e.rw, 2) + Bit(e.us, 4) + Bit(e.page, 128) + Bit(e.global, 256)
  }

  /** The word with the flags and, from bit 12 on, the address. */
  function Stored(e: Entry): nat {
    (4096 * e.frame + FlagBits(e)) % WORD
  }

  predicate Has(w: nat, weight: nat)
    requires weight > 0
  {
    w / weight % 2 == 1
  }

  /** The entry that the hardware reads in a word. */
  function Loaded(w: nat): Entry {
    Entry(Has(w, 1), Has(w, 2), Has(w, 4), Has(w, 128), Has(w, 256), w / 4096 % FRAMES)
  }

  /** A bit below bit 12 is one of the low 12 bits. */
  lemma LowBit(w: nat, weight: nat, d: nat)
    requires weight > 0 && 2 * weight * d == 4096
    ensures Has(w, weight) == Has(w % 4096, weight)
  {
    var q, r, c := w / 4096, w % 4096, 2 * d;
    var a, b := r / weight, r % weight;
    DivisionOf(r, weight);
    assert c * weight == 4096;
    Regroup(q, c, weight);
    Distribute(q * c, a, weight);
    ModOfSum(q * c + a, weight, b);
    EvenDrops(q, d, a);
  }

  lemma EvenDrops(q: nat, d: nat, a: nat)
    ensures (q * (2 * d) + a) % 2 == a % 2
  {
    assert q * (2 * d) == 2 * (q * d);
  }

  lemma FlagsRead(e: Entry)
    ensures var r := FlagBits(e);
      && Has(r, 1) == e.present && Has(r, 2) == e.rw && Has(r, 4) == e.us
      && Has(r, 128) == e.page && Has(r, 256) == e.global
  {
  }

  lemma LowBits(e: Entry, w: nat)
    requires w % 4096 == FlagBits(e)
    ensures Has(w, 1) == e.present && Has(w, 2) == e.rw && Has(w, 4) == e.us
    ensures Has(w, 128) == e.page && Has(w, 256) == e.global
  {
    hide Has, FlagBits;
    FlagsRead(e);
    LowBit(w, 1, 2048);
    LowBit(w, 2, 1024);
    LowBit(w, 4, 512);
    LowBit(w, 128, 16);
    LowBit(w, 256, 8);
  }

  lemma StoredParts(e: Entry)
    ensures Stored(e) % 4096 == FlagBits(e) && Stored(e) / 4096 == e.frame % 0x10_0000_0000_0000
  {
    var f, r := e.frame, FlagBits(e);
    var q, m := f / 0x10_0000_0000_0000, f % 0x10_0000_0000_0000;
    assert 4096 * f + r == q * WORD + (4096 * m + r);
    assert (4096 * f + r) % WORD == 4096 * m + r;
  }

  lemma LowFrame(f: nat)
    ensures f % 0x10_0000_0000_0000 % FRAMES == f % FRAMES
  {
    var q, m := f / 0x10_0000_0000_0000, f % 0x10_0000_0000_0000;
    var a, b := m / FRAMES, m % FRAMES;
    assert f == (q * 4096 + a) * FRAMES + b;
  }

  /** The hardware reads back the entry that was stored exactly when its frame is below 2^40. */
  lemma EntryReadsBackExactly(e: Entry)
    ensures Loaded(Stored(e)) == e <==> e.frame < FRAMES
  {
    hide Stored, FlagBits, Has;
    StoredParts(e);
    LowBits(e, Stored(e));
    LowFrame(e.frame);
  }

  /** The words the kernel writes: a link carries 7 in its low bits, a leaf 1 with 2 for writable, 4 for
      user and 256 for global, and 128 if it is a superpage. */
  lemma WordsWritten(frame: nat, rw: bool, us: bool, page: bool, global: bool)
    requires frame < FRAMES
    ensures Stored(Entry(true, true, true, false, false, frame)) == 4096 * frame + 7
    ensures var low := 1 + (if rw then 2 else 0) + (if us then 4 else 0);
      Stored(Entry(true, rw, us, page, global, frame)) ==
        4096 * frame + low + (if page then 128 else 0) + if global then 256 else 0
  {
  }

  /** The frame at 2^52 bytes reads back as frame 0. */
  lemma HighFrameLost()
    ensures Loaded(Stored(ZERO.(present := true, frame := FRAMES))) == ZERO.(present := true)
  {
    var e := ZERO.(present := true, frame := FRAMES);
    hide Stored, Has;
    StoredParts(e);
    LowBits(e, Stored(e));
    assert FRAMES % 0x10_0000_0000_0000 % FRAMES == 0;
  }
}
