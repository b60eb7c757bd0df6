/** The attribute word of a heap block: group id in bits 0-7, alignment padding in bits 8-14,
    allocation direction in bit 15. */
module BlockAttributes {
  import opened BitValue

  function GetPadding(attributes: bv32): bv16 { ((attributes >> 8) & 0x7F) as bv16 }

  function SetPadding(attributes: bv32, padding: bv16): bv32 {
    (attributes & !0x7F00) | (((padding & 0x7F) as bv32) << 8)
  }

  function GetGroupId(attributes: bv32): bv16 { (attributes & 0xFF) as bv16 }

  function SetGroupId(attributes: bv32, groupId: bv16): bv32 {
    (attributes & !0xFF) | ((groupId & 0xFF) as bv32)
  }

  function GetDirection(attributes: bv32): bv32 { (attributes >> 15) & 1 }

  function SetDirection(attributes: bv32, direction: bv32): bv32 {
    (attributes & !0x8000) | (direction << 15)
  }

  /** Each setter changes the field it names, keeping the bits that fit, and no other field. */
  lemma SetPaddingMeaning(attributes: bv32, padding: bv16)
    ensures GetPadding(SetPadding(attributes, padding)) == padding & 0x7F
    ensures GetGroupId(SetPadding(attributes, padding)) == GetGroupId(attributes)
    ensures GetDirection(SetPadding(attributes, padding)) == GetDirection(attributes)
  {
  }

  lemma SetGroupIdMeaning(attributes: bv32, groupId: bv16)
    ensures GetPadding(SetGroupId(attributes, groupId)) == GetPadding(attributes)
    ensures GetGroupId(SetGroupId(attributes, groupId)) == groupId & 0xFF
    ensures GetDirection(SetGroupId(attributes, groupId)) == GetDirection(attributes)
  {
  }

  lemma SetDirectionMeaning(attributes: bv32, direction: bv32)
    requires direction < 2
    ensures GetPadding(SetDirection(attributes, direction)) == GetPadding(attributes)
    ensures GetGroupId(SetDirection(attributes, direction)) == GetGroupId(attributes)
    ensures GetDirection(SetDirection(attributes, direction)) == direction
  {
  }

  /** The three setters, run in the order a fresh used block runs them, leave all three fields
      readable. */
  lemma FreshUsedBlock(direction: bv32, padding: bv16, groupId: bv16)
    requires direction < 2
    ensures var a := SetGroupId(SetPadding(SetDirection(0, direction), padding), groupId);
            GetDirection(a) == direction && GetPadding(a) == padding & 0x7F && GetGroupId(a) == groupId & 0xFF
  {
    SetDirectionMeaning(0, direction);
    SetPaddingMeaning(SetDirection(0, direction), padding);
    SetGroupIdMeaning(SetPadding(SetDirection(0, direction), padding), groupId);
  }

  /** One bit of a number and of its low bits. */
  lemma LowBit(x: bv32, l: bv32, m: bv32)
    requires l & (l + 1) == 0 && l <= m && 0 < l <= 0x7F && l & m == l
    ensures Value(x, m) - Value(x & l, l) == 2 * (Value(x >> 1, m >> 1) - Value((x >> 1) & (l >> 1), l >> 1))
    ensures Value(x & l, l) <= 2 * Value((x >> 1) & (l >> 1), l >> 1) + 1
  {
    assert (x & l) >> 1 == (x >> 1) & (l >> 1);
    assert (x & l) & 1 == x & 1;
  }

  function Weight(l: bv32): nat
    decreases l
  {
    if l == 0 then 1 else 2 * Weight(l >> 1)
  }

  lemma {:induction false} LowBits(x: bv32, l: bv32, m: bv32) returns (q: int)
    requires l & (l + 1) == 0 && l <= m && l <= 0x7F && l & m == l
    ensures Value(x, m) == Value(x & l, l) + q * Weight(l) && Value(x & l, l) < Weight(l)
    decreases l
  {
    if l == 0 {
      q := Value(x, m);
    } else {
      LowBit(x, l, m);
      q := LowBits(x >> 1, l >> 1, m >> 1);
      Doubled(q, Weight(l >> 1));
    }
  }

  lemma Doubled(q: int, w: int)
    ensures 2 * (q * w) == q * (2 * w)
  {
  }

  lemma WeightOfSeven()
    ensures Weight(0x7F) == 0x80
  {
    assert Weight(0x1) == 0x2;
    assert Weight(0x3) == 0x4;
    assert Weight(0x7) == 0x8;
    assert Weight(0xF) == 0x10;
    assert Weight(0x1F) == 0x20;
    assert Weight(0x3F) == 0x40;
  }

  lemma RemainderIs(v: int, r: int, q: int, w: int)
    requires v == r + q * w && 0 <= r < w == 0x80
    ensures v % 0x80 == r
  {
    assert v == r + q * 0x80;
  }

  lemma LowSevenBits(x: bv32)
    ensures Value(x, 0xFFFF) % 0x80 == Value(x & 0x7F, 0x7F)
  {
    var q := LowBits(x, 0x7F, 0xFFFF);
    WeightOfSeven();
    RemainderIs(Value(x, 0xFFFF), Value(x & 0x7F, 0x7F), q, Weight(0x7F));
  }

  /** Reading a stored padding back gives it modulo 128, as block headers keep it. */
  lemma PaddingIsKept(attributes: bv32, padding: bv16)
    ensures Value(GetPadding(SetPadding(attributes, padding)) as bv32, 0x7F) == Value(padding as bv32, 0xFFFF) % 0x80
  {
    SetPaddingMeaning(attributes, padding);
    LowSevenBits(padding as bv32);
  }
}
