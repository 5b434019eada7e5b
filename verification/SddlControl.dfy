/** The control word of a descriptor in text: each flag of a D: or S: section is one bit of it. */
module SddlControl {
  import opened Aces
  import opened Descriptors
  import opened SddlText

  /** What a sum of distinct bits is made of. */
  lemma BitsOfSum(c: nat, dp: nat, sp: nat, dr: nat, sr: nat, di: nat, si: nat, dx: nat, sx: nat)
    requires dp <= 1 && sp <= 1 && dr <= 1 && sr <= 1 && di <= 1 && si <= 1 && dx <= 1 && sx <= 1
    requires c == 4 * dp + 0x10 * sp + 0x100 * dr + 0x200 * sr + 0x400 * di + 0x800 * si + 0x1000 * dx + 0x2000 * sx
    ensures c / 4 % 2 == dp && c / 0x10 % 2 == sp && c / 0x100 % 2 == dr && c / 0x200 % 2 == sr
    ensures c / 0x400 % 2 == di && c / 0x800 % 2 == si && c / 0x1000 % 2 == dx && c / 0x2000 % 2 == sx
  {
    var low := 4 * dp + 0x10 * sp;
    var mid := 4 * di + 8 * si + 0x10 * dx + 0x20 * sx;
    assert c == 0x100 * (dr + 2 * sr + mid) + low;
    assert c / 4 == dp + 4 * (sp + 0x10 * (dr + 2 * sr + mid));
    assert c / 0x10 == sp + 0x10 * (dr + 2 * sr + mid);
    assert c / 0x100 == dr + 2 * sr + mid;
    assert c / 0x200 == sr + mid / 2;
    assert c / 0x400 == di + 2 * (si + 2 * (dx + 2 * sx));
    assert c / 0x800 == si + 2 * (dx + 2 * sx);
    assert c / 0x1000 == dx + 2 * sx;
  }

  /** The control word of a tree says exactly what its sections say. */
  lemma ControlBits(d: TextAcl, s: TextAcl)
    ensures var c := ControlOf(d, s);
            && Has(c, DACL_PRESENT) == d.aces.Some? && Has(c, SACL_PRESENT) == s.aces.Some?
            && Has(c, DACL_REQUESTED) == d.requested && Has(c, SACL_REQUESTED) == s.requested
            && Has(c, DACL_AUTO_INHERITED) == d.inherited && Has(c, SACL_AUTO_INHERITED) == s.inherited
            && Has(c, DACL_PROTECTED) == d.protected && Has(c, SACL_PROTECTED) == s.protected
  {
    BitsOfSum(ControlOf(d, s), Bit(d.aces.Some?), Bit(s.aces.Some?), Bit(d.requested), Bit(s.requested), Bit(d.inherited),
              Bit(s.inherited), Bit(d.protected), Bit(s.protected));
  }
}
