/**
 * The `ruby` provider of `fileperms`: a file complies when its mode has no
 * permission bit that the allowed maximum lacks. Modes are 32-bit, as a
 * stat mode is; the maximum is the perms string read as octal and cut to
 * 32 bits, which loses nothing because every bit above 32 is and-ed with a
 * zero bit of the file mode.
 */
module FilepermsProvider {
  import opened Wrappers
  import opened Octal

  /** 0100000, the stat mode bit of a regular file (S_IFREG). */
  const RegularFileBit: bv32 := 0x8000
  /** 0040000, the stat mode bit of a directory (S_IFDIR). */
  const DirectoryBit: bv32 := 0x4000
  /** 07777, the setuid/setgid/sticky bits and the three permission triads. */
  const PermissionBits: bv32 := 0xFFF

  /**
   * `File.stat(...).mode ^ 0100000`: the regular-file bit is flipped and every
   * other bit is kept, so flipping twice gives the stat mode back.
   */
  function FileMode(statMode: bv32): (r: bv32)
    ensures r ^ RegularFileBit == statMode
    ensures r & !RegularFileBit == statMode & !RegularFileBit
    ensures (r & RegularFileBit == 0) <==> (statMode & RegularFileBit != 0)
  {
    statMode ^ RegularFileBit
  }

  /**
   * `resource[:perms].to_i(8)`, as a 32-bit value: a perms string whose octal
   * prefix denotes less than 2^32 gives exactly that number.
   */
  function MaxMode(perms: string): (r: bv32)
    ensures ParseOctal(perms) < 0x1_0000_0000 ==> r == ParseOctal(perms) as bv32
  {
    (ParseOctal(perms) % 0x1_0000_0000) as bv32
  }

  /**
   * `((filemode ^ maxmode) & filemode) == 0`: the file mode has no bit that
   * the maximum lacks.
   */
  predicate Compliant(filemode: bv32, maxmode: bv32)
    ensures Compliant(filemode, maxmode) <==> filemode & !maxmode == 0
  {
    assert ((filemode ^ maxmode) & filemode) == filemode & !maxmode;
    ((filemode ^ maxmode) & filemode) == 0
  }

  /** Whether bit i (0 = least significant) is set in x. */
  function Bit(x: bv32, i: bv32): bool
    requires i < 32
  {
    (x >> i) & 1 == 1
  }

  /** The bits below bit k. */
  function LowMask(k: bv32): bv32
    requires k <= 32
  {
    if k == 32 then 0xFFFF_FFFF else ((1 as bv32) << k) - 1
  }

  lemma MaskStep(x: bv32, i: bv32)
    requires i < 32 && x & LowMask(i) == 0 && !Bit(x, i)
    ensures x & LowMask(i + 1) == 0
  {
  }

  lemma FullMask(x: bv32)
    ensures x & LowMask(32) == x
  {
  }

  lemma BitOfAndNot(f: bv32, m: bv32, i: bv32)
    requires i < 32
    ensures Bit(f & !m, i) <==> Bit(f, i) && !Bit(m, i)
  {
  }

  /** A non-zero x with no bit below i has a set bit at i or above. */
  lemma {:induction false} SetBitFrom(x: bv32, i: bv32) returns (j: bv32)
    requires i <= 32 && x & LowMask(i) == 0 && x != 0
    ensures i <= j < 32 && Bit(x, j)
    decreases 32 - i as int
  {
    if i == 32 {
      FullMask(x);
      assert false;
    } else if Bit(x, i) {
      j := i;
    } else {
      MaskStep(x, i);
      j := SetBitFrom(x, i + 1);
    }
  }

  /** Bit by bit: the file complies exactly when every bit it has, the maximum has. */
  lemma CompliantBitwise(f: bv32, m: bv32)
    ensures Compliant(f, m) <==> forall i: bv32 :: i < 32 ==> (Bit(f, i) ==> Bit(m, i))
  {
    if Compliant(f, m) {
      forall i: bv32 | i < 32
        ensures Bit(f, i) ==> Bit(m, i)
      {
        BitOfAndNot(f, m, i);
      }
    } else {
      var j := SetBitFrom(f & !m, 0);
      BitOfAndNot(f, m, j);
    }
  }

  /** A mode equal to the maximum complies. */
  lemma EqualModeComplies(f: bv32)
    ensures Compliant(f, f)
  {
  }

  /** Allowing more bits never makes a compliant file non-compliant. */
  lemma CompliantMonotone(f: bv32, m: bv32, m': bv32)
    requires Compliant(f, m)
    requires m & m' == m
    ensures Compliant(f, m')
  {
  }

  /** For a regular file the toggle leaves exactly the permission bits. */
  lemma RegularFileMode(perm: bv32)
    requires perm & !PermissionBits == 0
    ensures FileMode(RegularFileBit | perm) == perm
  {
  }

  /** A directory keeps a type bit above the permission bits, so it never complies with a 4-digit maximum. */
  lemma DirectoryNeverCompliant(perm: bv32, m: bv32)
    requires perm & !PermissionBits == 0
    requires m & !PermissionBits == 0
    ensures !Compliant(FileMode(DirectoryBit | perm), m)
  {
  }

  /** A perms string of at most four octal digits gives a maximum within the permission bits. */
  lemma ShortPermsFit(perms: string)
    requires |perms| <= 4
    ensures MaxMode(perms) & !PermissionBits == 0
  {
    ShortPermsBelow(perms);
    SmallValueFits(ParseOctal(perms));
    SmallFits(MaxMode(perms));
  }

  lemma ShortPermsBelow(perms: string)
    requires |perms| <= 4
    ensures ParseOctal(perms) < 4096
  {
    var n := OctalPrefixLength(perms);
    if n < 4 {
      Pow8Monotone(n, 4);
    }
  }

  lemma SmallValueFits(v: nat)
    requires v < 4096
    ensures (v % 0x1_0000_0000) as bv32 <= 0xFFF
  {
    assert v % 0x1_0000_0000 == v;
  }

  lemma {:induction false} Pow8Monotone(a: nat, b: nat)
    requires a <= b
    ensures Pow8(a) <= Pow8(b)
  {
    if a < b {
      Pow8Monotone(a, b - 1);
    }
  }

  lemma SmallFits(x: bv32)
    requires x <= 0xFFF
    ensures x & !PermissionBits == 0
  {
  }

  /**
   * `exists?`: stats the file (an Errno from File.stat propagates) and is
   * true exactly when the file's mode has no bit outside the maximum.
   */
  function Exists(stat: Result<bv32, string>, perms: string): (r: Result<bool, string>)
    ensures stat.Failure? ==> r == Failure(stat.error)
    ensures stat.Success? ==> r.Success? && (r.value <==> FileMode(stat.value) & !MaxMode(perms) == 0)
  {
    match stat
    case Failure(e) => Failure(e)
    case Success(mode) =>
      Success(Compliant(FileMode(mode), MaxMode(perms)))
  }

  /** The worked example: a regular file 0600 complies with '0640', 0777 does not. */
  lemma SudoersExample()
    ensures Exists(Success(RegularFileBit | 0x180), "0640") == Success(true)
    ensures Exists(Success(RegularFileBit | 0x1FF), "0640") == Success(false)
  {
    MaxModeExample();
  }

  lemma MaxModeExample()
    ensures MaxMode("0640") == 0x1A0
  {
    ParseExample();
    var v := ParseOctal("0640") % 0x1_0000_0000;
    assert v == 416;
    assert v as bv32 == 416 as bv32 == 0x1A0;
  }

  /** The warning `create` logs. */
  const OverlyPermissive := "Overly permissive permissions detected!"

  /**
   * The provider with the one file it checks. `exists?` reads the file's mode
   * through `File.stat`, which is the `stat` argument of `Exists`; `diskMode`
   * is here only so that `Create` and `Destroy` can state that they leave the
   * file's mode alone.
   */
  class Provider {
    var diskMode: bv32          // the checked file's stat mode
    var warnings: seq<string>   // what has been logged

    constructor (diskMode: bv32)
      ensures this.diskMode == diskMode && warnings == []
    {
      this.diskMode := diskMode;
      warnings := [];
    }

    /** `create`: flags the non-compliance with a warning and leaves the file alone. */
    method Create()
      modifies this
      ensures warnings == old(warnings) + [OverlyPermissive]
      ensures diskMode == old(diskMode)
    {
      warnings := warnings + [OverlyPermissive];
    }

    /** `destroy`: does nothing. */
    method Destroy()
      ensures unchanged(this)
    {
    }
  }
}
