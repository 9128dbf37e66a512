/**
 The 32-bit record of db_stress (db_stress/expected_value.h, db_stress/expected_value.cpp): masks and shifts as the
 source has them, and the five independent fields they stand for.  The class is copied by value everywhere,
 so it is a word here and its mutators return the new word.
 */
module ExpectedValue {
  import opened Bits
  import opened Bytes
  import opened Modular

  const VALUE_BASE_MASK := 0x7fff
  const VALUE_BASE_DELTA := 1
  const PENDING_WRITE_MASK := 0x8000
  const DEL_COUNTER_MASK := 0x3fff_0000
  const DEL_COUNTER_DELTA := 0x1_0000
  const PENDING_DEL_MASK := 0x4000_0000
  const DEL_MASK := 0x8000_0000

  const BASES := 0x8000        // number of value bases
  const DELS := 0x4000         // number of delete counter values

  // ---- parts of a word

  function GetPart(v: nat, mask: nat): nat { And(v, mask) }
  function IncrementedPart(v: nat, mask: nat, delta: nat): nat { And(And(v, mask) + delta, mask) }
  function ClearPart(v: nat, mask: nat): nat { AndNot(v, mask) }
  function SetPart(v: nat, mask: nat, part: nat): nat { Or(AndNot(v, mask), part) }

  function GetValueBase(v: nat): nat { GetPart(v, VALUE_BASE_MASK) }
  function NextValueBase(v: nat): nat { IncrementedPart(v, VALUE_BASE_MASK, VALUE_BASE_DELTA) }
  function GetDelCounter(v: nat): nat { GetPart(v, DEL_COUNTER_MASK) }
  function NextDelCounter(v: nat): nat { IncrementedPart(v, DEL_COUNTER_MASK, DEL_COUNTER_DELTA) }
  predicate PendingWrite(v: nat) { GetPart(v, PENDING_WRITE_MASK) != 0 }
  predicate PendingDelete(v: nat) { GetPart(v, PENDING_DEL_MASK) != 0 }
  predicate IsDeleted(v: nat) { GetPart(v, DEL_MASK) != 0 }
  function GetFinalValueBase(v: nat): nat { if PendingWrite(v) then NextValueBase(v) else GetValueBase(v) }
  function GetFinalDelCounter(v: nat): nat { if PendingDelete(v) then NextDelCounter(v) else GetDelCounter(v) }

  /** ExpectedValue::Put. */
  function Put(v: nat, pending: bool): nat {
    if pending then SetPart(v, PENDING_WRITE_MASK, PENDING_WRITE_MASK)
    else ClearPart(ClearPart(SetPart(v, VALUE_BASE_MASK, NextValueBase(v)), DEL_MASK), PENDING_WRITE_MASK)
  }

  /** ExpectedValue::Delete once the pending-and-absent case has returned false. */
  function Delete(v: nat, pending: bool): nat {
    if pending then SetPart(v, PENDING_DEL_MASK, PENDING_DEL_MASK)
    else ClearPart(SetPart(SetPart(v, DEL_COUNTER_MASK, NextDelCounter(v)), DEL_MASK, DEL_MASK), PENDING_DEL_MASK)
  }

  // ---- the fields

  datatype Fields = Fields(base: nat, pendingWrite: bool, dels: nat, pendingDel: bool, deleted: bool)
  {
    predicate Valid() { base < BASES && dels < DELS }
  }

  function Bit(b: bool): nat { if b then 1 else 0 }

  function Pack(f: Fields): Word32
    requires f.Valid()
  {
    f.base + BASES * (Bit(f.pendingWrite) + 2 * (f.dels + DELS * (Bit(f.pendingDel) + 2 * Bit(f.deleted))))
  }

  function Unpack(v: Word32): (f: Fields)
    ensures f.Valid()
  {
    var afterBase := v / BASES;
    var afterWrite := afterBase / 2;
    var afterDels := afterWrite / DELS;
    Fields(v % BASES, afterBase % 2 == 1, afterWrite % DELS, afterDels % 2 == 1, afterDels / 2 == 1)
  }

  lemma PackUnpack(v: Word32)
    ensures Pack(Unpack(v)) == v
  {
  }

  lemma Low(x: nat, r: nat, m: nat)
    requires x < m
    ensures (x + m * r) % m == x && (x + m * r) / m == r
  {
    QuotientRemainder(x + m * r, r, x, m);
  }

  lemma UnpackPack(f: Fields)
    requires f.Valid()
    ensures Unpack(Pack(f)) == f
  {
    var top := Bit(f.pendingDel) + 2 * Bit(f.deleted);
    var mid := f.dels + DELS * top;
    var low := Bit(f.pendingWrite) + 2 * mid;
    Low(f.base, low, BASES);
    Low(Bit(f.pendingWrite), mid, 2);
    Low(f.dels, top, DELS);
    Low(Bit(f.pendingDel), Bit(f.deleted), 2);
    assert Pack(f) == f.base + BASES * low;
  }

  // ---- masks pick fields

  lemma FieldMask(v: nat, k: nat, j: nat, mask: nat)
    requires mask == (Pow2(k) - 1) * Pow2(j)
    ensures And(v, mask) == v / Pow2(j) % Pow2(k) * Pow2(j)
  {
    AndShift(v, Pow2(k) - 1, j);
    ShrDivides(v, j);
    AndMask(Shr(v, j), k);
  }

  lemma BaseMask(v: nat)
    ensures And(v, VALUE_BASE_MASK) == v % BASES
  {
    hide And;
    Powers();
    AndMask(v, 15);
  }

  lemma DelMask(v: nat)
    ensures And(v, DEL_COUNTER_MASK) == v / DEL_COUNTER_DELTA % DELS * DEL_COUNTER_DELTA
  {
    hide And;
    Powers();
    FieldMask(v, 14, 16, DEL_COUNTER_MASK);
  }

  lemma FlagMask(v: nat, j: nat)
    ensures And(v, Pow2(j)) == v / Pow2(j) % 2 * Pow2(j)
  {
    hide And;
    Powers();
    FieldMask(v, 1, j, Pow2(j));
  }

  lemma DivDiv(v: Word32)
    ensures v / DEL_COUNTER_DELTA == v / BASES / 2
    ensures v / PENDING_DEL_MASK == v / BASES / 2 / DELS
    ensures v / DEL_MASK == v / BASES / 2 / DELS / 2
  {
  }

  /** The fields of a record, as quotients and remainders of the word. */
  lemma PackedParts(f: Fields)
    requires f.Valid()
    ensures var v := Pack(f);
      && v % BASES == f.base && v / BASES % 2 == Bit(f.pendingWrite) && v / DEL_COUNTER_DELTA % DELS == f.dels
      && v / PENDING_DEL_MASK % 2 == Bit(f.pendingDel) && v / DEL_MASK % 2 == Bit(f.deleted)
  {
    hide Pack;
    UnpackPack(f);
    DivDiv(Pack(f));
  }

  lemma MaskedParts(f: Fields)
    requires f.Valid()
    ensures And(Pack(f), VALUE_BASE_MASK) == f.base
    ensures And(Pack(f), PENDING_WRITE_MASK) == PENDING_WRITE_MASK * Bit(f.pendingWrite)
    ensures And(Pack(f), DEL_COUNTER_MASK) == f.dels * DEL_COUNTER_DELTA
    ensures And(Pack(f), PENDING_DEL_MASK) == PENDING_DEL_MASK * Bit(f.pendingDel)
    ensures And(Pack(f), DEL_MASK) == DEL_MASK * Bit(f.deleted)
  {
    hide And, Pack, Bit, Pow2;
    var v := Pack(f);
    PackedParts(f);
    Powers();
    BaseMask(v);
    DelMask(v);
    FlagMask(v, 15);
    FlagMask(v, 30);
    FlagMask(v, 31);
  }

  /** The getters of the source, field by field. */
  lemma Getters(f: Fields)
    requires f.Valid()
    ensures GetValueBase(Pack(f)) == f.base
    ensures GetDelCounter(Pack(f)) == f.dels * DEL_COUNTER_DELTA
    ensures PendingWrite(Pack(f)) == f.pendingWrite && PendingDelete(Pack(f)) == f.pendingDel
    ensures IsDeleted(Pack(f)) == f.deleted
  {
    MaskedParts(f);
  }

  /** The counters wrap inside their fields. */
  function NextBase(b: nat): nat { if b + 1 < BASES then b + 1 else 0 }
  function NextDel(d: nat): nat { if d + 1 < DELS then d + 1 else 0 }

  lemma Increments(f: Fields)
    requires f.Valid()
    ensures NextValueBase(Pack(f)) == NextBase(f.base)
    ensures NextDelCounter(Pack(f)) == NextDel(f.dels) * DEL_COUNTER_DELTA
  {
    hide And, Pack;
    Getters(f);
    BaseAfter(f.base);
    DelAfter(f.dels);
  }

  lemma BaseAfter(b: nat)
    requires b < BASES
    ensures And(b + VALUE_BASE_DELTA, VALUE_BASE_MASK) == NextBase(b)
  {
    hide And;
    BaseMask(b + VALUE_BASE_DELTA);
  }

  lemma DelAfter(d: nat)
    requires d < DELS
    ensures And(d * DEL_COUNTER_DELTA + DEL_COUNTER_DELTA, DEL_COUNTER_MASK) == NextDel(d) * DEL_COUNTER_DELTA
  {
    hide And;
    DelMask(d * DEL_COUNTER_DELTA + DEL_COUNTER_DELTA);
    Low(0, d + 1, DEL_COUNTER_DELTA);
  }

  /** Writing a part changes its field and no other. */
  lemma SetBase(f: Fields, b: nat)
    requires f.Valid() && b < BASES
    ensures SetPart(Pack(f), VALUE_BASE_MASK, b) == Pack(f.(base := b))
  {
    hide And, AndNot, Or;
    MaskedParts(f);
    BaseMask(b);
    AndNotSubtracts(b, VALUE_BASE_MASK);
    Overwrite(Pack(f), VALUE_BASE_MASK, b);
  }

  lemma SetDels(f: Fields, d: nat)
    requires f.Valid() && d < DELS
    ensures SetPart(Pack(f), DEL_COUNTER_MASK, d * DEL_COUNTER_DELTA) == Pack(f.(dels := d))
  {
    hide And, AndNot, Or;
    MaskedParts(f);
    DelMask(d * DEL_COUNTER_DELTA);
    Low(0, d, DEL_COUNTER_DELTA);
    AndNotSubtracts(d * DEL_COUNTER_DELTA, DEL_COUNTER_MASK);
    Overwrite(Pack(f), DEL_COUNTER_MASK, d * DEL_COUNTER_DELTA);
  }

  lemma SetFlag(f: Fields, mask: nat, f': Fields)
    requires f.Valid() && f'.Valid()
    requires (mask == PENDING_WRITE_MASK && f' == f.(pendingWrite := true))
          || (mask == PENDING_DEL_MASK && f' == f.(pendingDel := true))
          || (mask == DEL_MASK && f' == f.(deleted := true))
    ensures SetPart(Pack(f), mask, mask) == Pack(f')
  {
    hide And, AndNot, Or;
    MaskedParts(f);
    AndNotSelf(mask);
    Overwrite(Pack(f), mask, mask);
  }

  lemma ClearFlag(f: Fields, mask: nat, f': Fields)
    requires f.Valid() && f'.Valid()
    requires (mask == PENDING_WRITE_MASK && f' == f.(pendingWrite := false))
          || (mask == PENDING_DEL_MASK && f' == f.(pendingDel := false))
          || (mask == DEL_MASK && f' == f.(deleted := false))
    ensures ClearPart(Pack(f), mask) == Pack(f')
  {
    hide And, AndNot, Or;
    MaskedParts(f);
    AndNotSubtracts(Pack(f), mask);
  }

  /** Put and Delete on the fields. */
  lemma PutFields(f: Fields)
    requires f.Valid()
    ensures Put(Pack(f), true) == Pack(f.(pendingWrite := true))
    ensures Put(Pack(f), false) == Pack(f.(base := NextBase(f.base), deleted := false, pendingWrite := false))
  {
    hide SetPart, ClearPart, Pack, IncrementedPart;
    SetFlag(f, PENDING_WRITE_MASK, f.(pendingWrite := true));
    Increments(f);
    var f1 := f.(base := NextBase(f.base));
    SetBase(f, NextBase(f.base));
    var f2 := f1.(deleted := false);
    ClearFlag(f1, DEL_MASK, f2);
    ClearFlag(f2, PENDING_WRITE_MASK, f2.(pendingWrite := false));
  }

  lemma DeleteFields(f: Fields)
    requires f.Valid()
    ensures Delete(Pack(f), true) == Pack(f.(pendingDel := true))
    ensures Delete(Pack(f), false) == Pack(f.(dels := NextDel(f.dels), deleted := true, pendingDel := false))
  {
    hide SetPart, ClearPart, Pack, IncrementedPart;
    SetFlag(f, PENDING_DEL_MASK, f.(pendingDel := true));
    Increments(f);
    var f1 := f.(dels := NextDel(f.dels));
    SetDels(f, NextDel(f.dels));
    var f2 := f1.(deleted := true);
    SetFlag(f1, DEL_MASK, f2);
    ClearFlag(f2, PENDING_DEL_MASK, f2.(pendingDel := false));
  }

  /** What a pending operation will leave behind. */
  lemma FinalParts(f: Fields)
    requires f.Valid()
    ensures GetFinalValueBase(Pack(f)) == if f.pendingWrite then NextBase(f.base) else f.base
    ensures GetFinalDelCounter(Pack(f)) == (if f.pendingDel then NextDel(f.dels) else f.dels) * DEL_COUNTER_DELTA
  {
    Getters(f);
    Increments(f);
  }
}
