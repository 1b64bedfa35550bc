/** The two loops of `drop_capabilities` in src/security.rs: the bounding-set drops, and the mask
    handed to `capset` as two 32-bit words. */
module Capabilities {
  /** A capability number. The source's constants are all below 64, so the shift keeps them. */
  type Cap = c: bv8 | c < 64

  const CAP_LAST_CAP: Cap := 40

  /** CHOWN, DAC_OVERRIDE, FOWNER, FSETID, KILL, SETGID, SETUID, SETPCAP, NET_BIND_SERVICE,
      SYS_CHROOT, MKNOD, AUDIT_WRITE, SETFCAP. */
  const DEFAULT_CAPS: seq<Cap> := [0, 1, 3, 4, 5, 6, 7, 8, 10, 18, 27, 29, 31]

  predicate Bit(mask: bv64, c: Cap) {
    (mask >> c) & 1 == 1
  }

  /** The words of `capset`'s data: the mask's low half, then its high half. */
  datatype CapWords = CapWords(low: bv32, high: bv32)

  predicate InWords(w: CapWords, c: Cap) {
    if c < 32 then (w.low >> c) & 1 == 1 else (w.high >> (c - 32)) & 1 == 1
  }

  lemma SetBit(mask: bv64, c: Cap, i: Cap)
    ensures Bit(mask | (1 << c), i) <==> Bit(mask, i) || i == c
  {
  }

  function Split(mask: bv64): (w: CapWords) {
    CapWords((mask & 0xffff_ffff) as bv32, ((mask >> 32) & 0xffff_ffff) as bv32)
  }

  lemma SplitKeepsBits(mask: bv64, c: Cap)
    ensures InWords(Split(mask), c) <==> Bit(mask, c)
  {
  }

  method BuildMask(caps: seq<Cap>) returns (mask: bv64)
    ensures forall c: Cap :: Bit(mask, c) <==> c in caps
  {
    mask := 0;
    for i := 0 to |caps|
      invariant forall c: Cap :: Bit(mask, c) <==> c in caps[..i]
    {
      ghost var before := mask;
      mask := mask | (1 << caps[i]);
      forall c: Cap
        ensures Bit(mask, c) <==> c in caps[..i + 1]
      {
        SetBit(before, caps[i], c);
        assert caps[..i + 1] == caps[..i] + [caps[i]];
      }
    }
    assert caps[..|caps|] == caps;
  }

  /** `dropped` collects the capabilities removed from the bounding set. */
  method DropCapabilities(caps: seq<Cap>) returns (dropped: set<Cap>, words: CapWords)
    ensures forall c: Cap :: c in dropped <==> c <= CAP_LAST_CAP && c !in caps
    ensures forall c: Cap :: InWords(words, c) <==> c in caps
  {
    dropped := {};
    var cap: bv8 := 0;
    while cap <= CAP_LAST_CAP
      invariant cap <= CAP_LAST_CAP + 1
      invariant forall c: Cap :: c in dropped <==> c < cap && c !in caps
      decreases CAP_LAST_CAP + 1 - cap
    {
      if cap !in caps {
        dropped := dropped + {cap};
      }
      cap := cap + 1;
    }
    var mask := BuildMask(caps);
    words := Split(mask);
    forall c: Cap
      ensures InWords(words, c) <==> Bit(mask, c)
    {
      SplitKeepsBits(mask, c);
    }
  }

  /** With the default list: thirteen capabilities are granted, and all others up to 40 are dropped. */
  method DropToDefault() returns (dropped: set<Cap>, words: CapWords)
    ensures forall c: Cap :: InWords(words, c) <==> c in {0, 1, 3, 4, 5, 6, 7, 8, 10, 18, 27, 29, 31}
    ensures forall c: Cap :: c in dropped <==> c <= 40 && c !in {0, 1, 3, 4, 5, 6, 7, 8, 10, 18, 27, 29, 31}
  {
    dropped, words := DropCapabilities(DEFAULT_CAPS);
  }
}
