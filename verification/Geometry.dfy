/** Where the fake addresses come from: the pool's size, mask and start, the
    hashed "natural" fake of a real, and the linear probe behind it.  All
    arithmetic is the engine's 32-bit arithmetic, wrap-around included. */
module Geometry {
  import opened Address
  import opened Blocks

  const DEFAULT_POOL_SIZE_V4: Uint32 := 131072
  const DEFAULT_POOL_SIZE_V6: Uint32 := 1048576

  /** 198.18.0.0 and fd00:18:: */
  const FALLBACK_START: Uint32 := 198 * 0x100_0000 + 18 * 0x1_0000
  const FALLBACK_START6: Uint128 := 0xfd00_0018_0000_0000_0000_0000_0000_0000

  const MAX_ATTEMPTS := 1024

  datatype Geometry = Geometry(start4: Uint32, size4: Uint32, mask4: nat,
                               start6: nat, size6: Uint32, mask6: nat)

  /** The hash is a parameter: one reading picks a shard, the other an offset
      from the address bytes of the chosen family. */
  datatype Hashing = Hashing(shard: IPKey -> Uint32, offset: (IPKey, bool) -> Uint32)

  // ------------------------------------------------------------- construction

  /** `base4` and `base6` are the parsed base addresses, if they parse. */
  function NewGeometry(size4: Uint32, size6: Uint32, base4: Option<Uint32>, base6: Option<Uint128>): Geometry {
    Build(if size4 == 0 then DEFAULT_POOL_SIZE_V4 else size4, if size6 == 0 then DEFAULT_POOL_SIZE_V6 else size6,
          base4, if base6.Some? then base6.value else FALLBACK_START6)
  }

  /** The base masked to the pool's net, or the fallback when that is zero. */
  function Start4(size4: Uint32, base4: Option<Uint32>): Uint32
    requires size4 > 0
  {
    var masked := if base4.Some? then Masked(base4.value, CeilLog2(size4)) else 0;
    if masked == 0 then FALLBACK_START else masked
  }

  function Build(size4: Uint32, size6: Uint32, base4: Option<Uint32>, base6: nat): Geometry
    requires size4 > 0 && size6 > 0
  {
    CeilLog2Bound(size4);
    CeilLog2Bound(size6);
    Geometry(Start4(size4, base4), size4, 32 - CeilLog2(size4),
             Masked(base6, CeilLog2(size6)), size6, 128 - CeilLog2(size6))
  }

  /** What every constructed geometry satisfies. */
  predicate WellFormed(g: Geometry) {
    && g.size4 > 0 && g.size6 > 0
    && CeilLog2(g.size4) <= 32 && g.mask4 == 32 - CeilLog2(g.size4)
    && CeilLog2(g.size6) <= 32 && g.mask6 == 128 - CeilLog2(g.size6)
    && Low(g.start6, CeilLog2(g.size6)) == 0
    && (Low(g.start4, CeilLog2(g.size4)) == 0 || g.start4 == FALLBACK_START)
  }

  lemma CeilLog2Bound(n: Uint32)
    requires n > 0
    ensures CeilLog2(n) <= 32
  {
    Pow2Values();
    CeilLog2AtMost(n, 32);
  }

  lemma BuildWellFormed(size4: Uint32, size6: Uint32, base4: Option<Uint32>, base6: nat)
    requires size4 > 0 && size6 > 0
    ensures WellFormed(Build(size4, size6, base4, base6))
  {
    CeilLog2Bound(size4);
    CeilLog2Bound(size6);
    if base4.Some? { MaskedParts(base4.value, CeilLog2(size4)); }
    MaskedParts(base6, CeilLog2(size6));
  }

  lemma NewGeometryWellFormed(size4: Uint32, size6: Uint32, base4: Option<Uint32>, base6: Option<Uint128>)
    ensures WellFormed(NewGeometry(size4, size6, base4, base6))
  {
    BuildWellFormed(if size4 == 0 then DEFAULT_POOL_SIZE_V4 else size4,
                    if size6 == 0 then DEFAULT_POOL_SIZE_V6 else size6,
                    base4, if base6.Some? then base6.value else FALLBACK_START6);
  }

  // --------------------------------------------------------- the natural fake

  predicate Skipped(v: nat) {
    v % 256 == 0 || v % 256 == 255
  }

  /** Off the network and broadcast octets. */
  function Nudge(v: Uint32): Uint32 {
    if v % 256 == 0 then v + 1 else if v % 256 == 255 then v - 1 else v
  }

  function Plus32(a: Uint32, b: Uint32): Uint32 {
    if a + b >= POW32 then a + b - POW32 else a + b
  }

  function Minus32(a: Uint32, b: Uint32): Uint32 {
    if a >= b then a - b else a - b + POW32
  }

  /** The low 32 bits of an IPv6 address. */
  function Word(k: IPKey): Uint32 {
    k % POW32
  }

  function Natural4(g: Geometry, offset: Uint32): Uint32 {
    Nudge(Plus32(g.start4, offset))
  }

  /** Only the low 32 bits of an IPv6 start move. */
  function Offset6(g: Geometry, offset: Uint32): IPKey {
    g.start6 - Word(g.start6) + Plus32(Word(g.start6), offset)
  }

  function HashOffset(g: Geometry, h: Hashing, realIP: IPKey, isV6: bool): (off: Uint32)
    requires g.size4 > 0 && g.size6 > 0
    ensures off < Size(g, isV6)
  {
    Rem(h.offset(realIP, isV6), Size(g, isV6))
  }

  /** `ComputeLevel1Hash`. */
  function Natural(g: Geometry, h: Hashing, realIP: IPKey, isV6: bool): IPKey
    requires g.size4 > 0 && g.size6 > 0
  {
    var off := HashOffset(g, h, realIP, isV6);
    if isV6 then Offset6(g, off) else V4Key(Natural4(g, off))
  }

  /** Where probing starts. */
  function NaturalOffset(g: Geometry, h: Hashing, realIP: IPKey, isV6: bool): Uint32
    requires g.size4 > 0 && g.size6 > 0
  {
    var off := HashOffset(g, h, realIP, isV6);
    if isV6 then Minus32(Word(Offset6(g, off)), Word(g.start6))
    else Minus32(Natural4(g, off), g.start4)
  }

  // ------------------------------------------------------------- linear probe

  function Size(g: Geometry, isV6: bool): Uint32 {
    if isV6 then g.size6 else g.size4
  }

  function Window(g: Geometry, isV6: bool): Uint32 {
    if Size(g, isV6) > MAX_ATTEMPTS then MAX_ATTEMPTS else Size(g, isV6)
  }

  function ProbeOffset(size: Uint32, from: Uint32, attempt: Uint32): (off: Uint32)
    requires size > 0
    ensures off < size
  {
    Rem(Plus32(from, attempt), size)
  }

  /** The address at an offset into the pool. */
  function AddressAt(g: Geometry, isV6: bool, off: Uint32): IPKey {
    if isV6 then Offset6(g, off) else V4Key(Plus32(g.start4, off))
  }

  function Candidate(g: Geometry, isV6: bool, from: Uint32, attempt: Uint32): IPKey
    requires g.size4 > 0 && g.size6 > 0
  {
    AddressAt(g, isV6, ProbeOffset(Size(g, isV6), from, attempt))
  }

  predicate Usable(g: Geometry, isV6: bool, from: Uint32, attempt: Uint32)
    requires g.size4 > 0
  {
    isV6 || !Skipped(Plus32(g.start4, ProbeOffset(g.size4, from, attempt)))
  }

  /** The first usable candidate that is not held, from `attempt` on. */
  function Probe(g: Geometry, held: set<IPKey>, isV6: bool, from: Uint32, attempt: Uint32): Option<IPKey>
    requires g.size4 > 0 && g.size6 > 0 && attempt <= Window(g, isV6)
    decreases Window(g, isV6) - attempt
  {
    if attempt == Window(g, isV6) then None
    else if Usable(g, isV6, from, attempt) && Candidate(g, isV6, from, attempt) !in held
    then Some(Candidate(g, isV6, from, attempt))
    else Probe(g, held, isV6, from, attempt + 1)
  }

  function Choose(g: Geometry, h: Hashing, held: set<IPKey>, realIP: IPKey, isV6: bool): Option<IPKey>
    requires g.size4 > 0 && g.size6 > 0
  {
    if Natural(g, h, realIP, isV6) !in held then Some(Natural(g, h, realIP, isV6))
    else Probe(g, held, isV6, NaturalOffset(g, h, realIP, isV6), 0)
  }

  /** The attempt is in the window and its address is usable. */
  predicate Tried(g: Geometry, isV6: bool, from: Uint32, low: Uint32, a: Uint32)
    requires g.size4 > 0
  {
    low <= a < Window(g, isV6) && Usable(g, isV6, from, a)
  }

  /** A chosen candidate is free and usable; none is chosen exactly when the whole
      window is skipped or held. */
  lemma {:induction false} ProbeExact(g: Geometry, held: set<IPKey>, isV6: bool, from: Uint32, attempt: Uint32)
    requires g.size4 > 0 && g.size6 > 0 && attempt <= Window(g, isV6)
    ensures var r := Probe(g, held, isV6, from, attempt);
            && (r.Some? ==> r.value !in held && exists a :: Tried(g, isV6, from, attempt, a) &&
                                                            r.value == Candidate(g, isV6, from, a))
            && (r.None? <==> forall a :: Tried(g, isV6, from, attempt, a) ==> Candidate(g, isV6, from, a) in held)
    decreases Window(g, isV6) - attempt
  {
    if attempt < Window(g, isV6) {
      var r := Probe(g, held, isV6, from, attempt);
      if Usable(g, isV6, from, attempt) && Candidate(g, isV6, from, attempt) !in held {
        assert Tried(g, isV6, from, attempt, attempt);
      } else {
        ProbeExact(g, held, isV6, from, attempt + 1);
        assert forall a :: Tried(g, isV6, from, attempt + 1, a) ==> Tried(g, isV6, from, attempt, a);
        assert forall a :: Tried(g, isV6, from, attempt, a) ==> a == attempt || Tried(g, isV6, from, attempt + 1, a);
      }
    }
  }

  /** The probe settles on the first attempt that is usable and free. */
  lemma {:induction false} ProbeFirst(g: Geometry, held: set<IPKey>, isV6: bool, from: Uint32, attempt: Uint32)
    requires g.size4 > 0 && g.size6 > 0 && attempt <= Window(g, isV6) && Probe(g, held, isV6, from, attempt).Some?
    ensures exists a: Uint32 :: FirstFree(g, held, isV6, from, attempt, a) &&
                        Probe(g, held, isV6, from, attempt) == Some(Candidate(g, isV6, from, a))
    decreases Window(g, isV6) - attempt
  {
    if Usable(g, isV6, from, attempt) && Candidate(g, isV6, from, attempt) !in held {
      assert FirstFree(g, held, isV6, from, attempt, attempt);
    } else {
      ProbeFirst(g, held, isV6, from, attempt + 1);
      var a: Uint32 :| FirstFree(g, held, isV6, from, attempt + 1, a) &&
               Probe(g, held, isV6, from, attempt + 1) == Some(Candidate(g, isV6, from, a));
      assert FirstFree(g, held, isV6, from, attempt, a);
    }
  }

  /** Attempt `a` is the first from `low` on whose address is usable and not held. */
  ghost predicate FirstFree(g: Geometry, held: set<IPKey>, isV6: bool, from: Uint32, low: Uint32, a: Uint32)
    requires g.size4 > 0 && g.size6 > 0
  {
    && Tried(g, isV6, from, low, a) && Candidate(g, isV6, from, a) !in held
    && forall b: Uint32 :: Tried(g, isV6, from, low, b) && b < a ==> Candidate(g, isV6, from, b) in held
  }

  /** The natural fake if it is free, otherwise the first free and usable candidate of
      the window, otherwise none. */
  lemma ChooseMeaning(g: Geometry, h: Hashing, held: set<IPKey>, realIP: IPKey, isV6: bool)
    requires g.size4 > 0 && g.size6 > 0
    ensures var natural, from := Natural(g, h, realIP, isV6), NaturalOffset(g, h, realIP, isV6);
            var chosen := Choose(g, h, held, realIP, isV6);
            if natural !in held then chosen == Some(natural)
            else if chosen.Some?
            then exists a: Uint32 :: FirstFree(g, held, isV6, from, 0, a) && chosen.value == Candidate(g, isV6, from, a)
            else forall a :: Tried(g, isV6, from, 0, a) ==> Candidate(g, isV6, from, a) in held
  {
    var from := NaturalOffset(g, h, realIP, isV6);
    ProbeExact(g, held, isV6, from, 0);
    if Probe(g, held, isV6, from, 0).Some? { ProbeFirst(g, held, isV6, from, 0); }
  }

  /** The addresses in numbers, IPv4: the hash modulo the size above the start, off .0 and
      .255, and the candidates, modulo the size and 2^32. */
  lemma Numbers4(g: Geometry, h: Hashing, realIP: IPKey, from: Uint32, a: Uint32)
    requires g.size4 > 0 && g.size6 > 0
    ensures var x := (g.start4 + h.offset(realIP, false) % g.size4) % 0x1_0000_0000;
            Natural(g, h, realIP, false) == 0xffff_0000_0000 +
              if x % 256 == 0 then x + 1 else if x % 256 == 255 then x - 1 else x
    ensures Candidate(g, false, from, a) ==
            0xffff_0000_0000 + (g.start4 + (from + a) % 0x1_0000_0000 % g.size4) % 0x1_0000_0000
    ensures Window(g, false) == if g.size4 < 1024 then g.size4 else 1024
  {
    RemIsMod(h.offset(realIP, false), g.size4);
    RemIsMod(Plus32(from, a), g.size4);
    Wraps(g.start4, HashOffset(g, h, realIP, false));
    Wraps(from, a);
    Wraps(g.start4, ProbeOffset(g.size4, from, a));
  }

  lemma Wraps(a: Uint32, b: Uint32)
    ensures Plus32(a, b) == (a + b) % 0x1_0000_0000
  {
  }

  /** In an IPv6 pool the low 32 bits move likewise; nothing is skipped. */
  lemma Numbers6(g: Geometry, h: Hashing, realIP: IPKey, from: Uint32, a: Uint32)
    requires g.size4 > 0 && g.size6 > 0
    ensures var low := g.start6 % 0x1_0000_0000;
            && Natural(g, h, realIP, true) ==
               g.start6 - low + (low + h.offset(realIP, true) % g.size6) % 0x1_0000_0000
            && Candidate(g, true, from, a) ==
               g.start6 - low + (low + (from + a) % 0x1_0000_0000 % g.size6) % 0x1_0000_0000
    ensures Window(g, true) == if g.size6 < 1024 then g.size6 else 1024
  {
    RemIsMod(h.offset(realIP, true), g.size6);
    RemIsMod(Plus32(from, a), g.size6);
    Wraps(Word(g.start6), HashOffset(g, h, realIP, true));
    Wraps(from, a);
    Wraps(Word(g.start6), ProbeOffset(g.size6, from, a));
  }

  // --------------------------------------------------- the geometry in numbers

  /** A base with the low bits cleared. */
  lemma MaskedRange(v: nat, k: nat)
    ensures Masked(v, k) <= v < Masked(v, k) + Pow2(k) && Low(Masked(v, k), k) == 0
  {
    MaskedParts(v, k);
    Parts(v, k);
  }

  /** What the constructor computes: the sizes given or 131072 and 1048576, the shortest
      nets that hold them, the bases given with the host bits cleared, or 198.18.0.0 when
      nothing is left of the IPv4 base, and fd00:18:: when there is no IPv6 base. */
  lemma GeometryMeaning(size4: Uint32, size6: Uint32, base4: Option<Uint32>, base6: Option<Uint128>)
    ensures var g := NewGeometry(size4, size6, base4, base6);
            var k4, k6, b6 := 32 - g.mask4, 128 - g.mask6, if base6.Some? then base6.value else 0xfd00_0018_0000_0000_0000_0000_0000_0000;
            && g.size4 == (if size4 == 0 then 131072 else size4) && g.size6 == (if size6 == 0 then 1048576 else size6)
            && 0 <= k4 <= 32 && g.size4 <= Pow2(k4) && (k4 > 0 ==> Pow2(k4 - 1) < g.size4)
            && 0 <= k6 <= 32 && g.size6 <= Pow2(k6) && (k6 > 0 ==> Pow2(k6 - 1) < g.size6)
            && Low(g.start6, k6) == 0 && g.start6 <= b6 < g.start6 + Pow2(k6)
            && if base4.Some? && base4.value >= Pow2(k4)
               then Low(g.start4, k4) == 0 && g.start4 <= base4.value < g.start4 + Pow2(k4)
               else g.start4 == 0xc612_0000
  {
    var g := NewGeometry(size4, size6, base4, base6);
    NewGeometryWellFormed(size4, size6, base4, base6);
    MaskedRange(if base6.Some? then base6.value else FALLBACK_START6, CeilLog2(g.size6));
    if base4.Some? { MaskedSmall(base4.value, CeilLog2(g.size4)); }
  }

  lemma MaskedSmall(v: nat, k: nat)
    ensures Masked(v, k) <= v < Masked(v, k) + Pow2(k) && Low(Masked(v, k), k) == 0
    ensures Masked(v, k) == 0 <==> v < Pow2(k)
  {
    MaskedRange(v, k);
    if v < Pow2(k) { WithinFirst(v, k); }
  }

  lemma WithinFirst(v: nat, k: nat)
    requires v < Pow2(k)
    ensures Masked(v, k) == 0
  {
    PartsUnique(v, k, 0, v);
  }

  // ---------------------------------------------------------- the advertised net

  predicate InNet4(g: Geometry, v: Uint32)
    requires g.size4 > 0
  {
    High(v, CeilLog2(g.size4)) == High(g.start4, CeilLog2(g.size4))
  }

  predicate InNet6(g: Geometry, k: IPKey)
    requires g.size6 > 0
  {
    k >= 0 && High(k, CeilLog2(g.size6)) == High(g.start6, CeilLog2(g.size6))
  }

  /** `isInSubnet`: what the receive loop lets through. */
  predicate InSubnet(g: Geometry, k: IPKey)
    requires g.size4 > 0 && g.size6 > 0
  {
    if IsV4(k) then InNet4(g, k - V4_BASE) else InNet6(g, k)
  }

  /** The check in numbers: the aligned ranges of the two nets. */
  lemma SubnetRange(g: Geometry, v: Uint32, k: nat)
    requires WellFormed(g)
    ensures var first := g.start4 - Low(g.start4, 32 - g.mask4);
            InSubnet(g, 0xffff_0000_0000 + v) <==> first <= v < first + Pow2(32 - g.mask4)
    ensures !(0xffff_0000_0000 <= k <= 0xffff_ffff_ffff) ==>
              (InSubnet(g, k) <==> g.start6 <= k < g.start6 + Pow2(128 - g.mask6))
  {
    SameBlock(v, g.start4, CeilLog2(g.size4));
    SameBlock(k, g.start6, CeilLog2(g.size6));
  }

  lemma SameBlock(v: nat, start: nat, k: nat)
    ensures High(v, k) == High(start, k) <==> start - Low(start, k) <= v < start - Low(start, k) + Pow2(k)
  {
    Parts(v, k);
    Parts(start, k);
    var first := start - Low(start, k);
    if first <= v < first + Pow2(k) {
      PartsUnique(v, k, High(start, k), v - first);
    }
  }

  /** The start leaves room for the whole pool inside its net. */
  predicate Roomy(g: Geometry)
    requires g.size4 > 0
  {
    g.mask4 == 0 || Low(g.start4, CeilLog2(g.size4)) + g.size4 <= Pow2(CeilLog2(g.size4))
  }

  lemma HalfOf(q: nat, r: nat)
    ensures (256 * q + r) / 2 == 128 * q + r / 2
  {
  }

  /** A nudge stays within an aligned pair of addresses. */
  lemma NudgeHalf(v: Uint32)
    ensures Nudge(v) / 2 == v / 2
  {
    var q, r := v / 256, v % 256;
    assert v == 256 * q + r;
    HalfOf(q, r);
    if r == 0 {
      HalfOf(q, 1);
    } else if r == 255 {
      HalfOf(q, 254);
    }
  }

  lemma NudgeStaysInNet(g: Geometry, v: Uint32)
    requires g.size4 > 1
    ensures InNet4(g, Nudge(v)) <==> InNet4(g, v)
  {
    NudgeHalf(v);
    SameHalf(Nudge(v), v, CeilLog2(g.size4));
  }

  lemma SameHalf(v: nat, w: nat, k: nat)
    requires k > 0 && v / 2 == w / 2
    ensures High(v, k) == High(w, k)
  {
  }

  lemma StaysInBlock(v: nat, k: nat, off: nat, n: nat)
    requires k <= n && v < Pow2(n) && Low(v, k) + off < Pow2(k)
    ensures v + off < Pow2(n) && High(v + off, k) == High(v, k)
  {
    BlockEnds(v, k, n);
    WithinBlock(v, k, off);
  }

  lemma WholeSpace(v: nat, w: nat, n: nat)
    requires v < Pow2(n) && w < Pow2(n)
    ensures High(v, n) == High(w, n)
  {
    BlockEnds(v, n, n);
    BlockEnds(w, n, n);
  }

  lemma OffsetInNet(g: Geometry, off: Uint32)
    requires WellFormed(g) && Roomy(g) && off < g.size4
    ensures InNet4(g, Plus32(g.start4, off))
    ensures g.mask4 != 0 ==> g.start4 + off < POW32
  {
    var k := CeilLog2(g.size4);
    Pow2Values();
    if g.mask4 == 0 {
      WholeSpace(g.start4, Plus32(g.start4, off), k);
    } else {
      StaysInBlock(g.start4, k, off, 32);
    }
  }

  /** The next block is another one, also when it is the first again. */
  lemma NextBlockDiffers(v: nat, k: nat, n: nat)
    requires k < n && v < Pow2(n)
    ensures var w := v + (Pow2(k) - Low(v, k));
            w <= Pow2(n) && High(w, k) != High(v, k) && (w == Pow2(n) ==> High(v, k) != 0)
  {
    BlockEnds(v, k, n);
    NextBlock(v, k);
    if High(v, k) == 0 {
      Parts(v, k);
      assert Pow2(k) * High(v, k) == 0;
      Pow2Monotone(k, n - 1);
    }
  }

  lemma NextBlockEscapes(g: Geometry, off: Uint32)
    requires WellFormed(g) && g.mask4 > 0 && off == Pow2(CeilLog2(g.size4)) - Low(g.start4, CeilLog2(g.size4))
    ensures !InNet4(g, Plus32(g.start4, off))
  {
    Pow2Values();
    NextBlockDiffers(g.start4, CeilLog2(g.size4), 32);
    LowOfZero(CeilLog2(g.size4));
  }

  /** Every natural IPv4 fake lies in the advertised net exactly when the pool has
      room there; a pool of one address does when that address is neither .0 nor
      .255, because those are nudged out of it. */
  lemma NaturalInNetIff(g: Geometry)
    requires WellFormed(g)
    ensures (forall off: Uint32 :: off < g.size4 ==> InNet4(g, Natural4(g, off))) <==>
            if g.size4 == 1 then !Skipped(g.start4) else Roomy(g)
  {
    var k := CeilLog2(g.size4);
    if g.size4 == 1 {
      assert Natural4(g, 0) == Nudge(g.start4);
    } else {
      forall off: Uint32 | off < g.size4
        ensures InNet4(g, Natural4(g, off)) <==> InNet4(g, Plus32(g.start4, off))
      {
        NudgeStaysInNet(g, Plus32(g.start4, off));
      }
      if Roomy(g) {
        forall off: Uint32 | off < g.size4 ensures InNet4(g, Natural4(g, off)) {
          OffsetInNet(g, off);
        }
      } else {
        var off := Pow2(k) - Low(g.start4, k);
        assert off < g.size4;
        NextBlockEscapes(g, off);
        assert !InNet4(g, Natural4(g, off));
      }
    }
  }

  /** IPv6 fakes never leave their net and the addition never wraps. */
  lemma OffsetInNet6(g: Geometry, off: Uint32)
    requires WellFormed(g) && off < g.size6
    ensures InNet6(g, Offset6(g, off)) && Offset6(g, off) == g.start6 + off
    ensures Word(Offset6(g, off)) == Word(g.start6) + off
  {
    var k := CeilLog2(g.size6);
    WordRoom(g.start6, k);
    WordSum(g.start6, off);
    WithinBlock(g.start6, k, off);
  }

  lemma WordRoom(start: nat, k: nat)
    requires k <= 32 && Low(start, k) == 0
    ensures Word(start) + Pow2(k) <= POW32
  {
    Pow2Values();
    WordIsLow(start);
    LowLow(start, k, 32);
    BlockEnds(Word(start), k, 32);
  }

  lemma WordIsLow(v: nat)
    ensures Low(v, 32) == Word(v)
  {
    Pow2Values();
    PartsUnique(v, 32, v / POW32, Word(v));
  }

  lemma WordSum(v: nat, off: Uint32)
    requires Word(v) + off < POW32
    ensures Word(v + off) == Word(v) + off
  {
  }

  /** An IPv4 choice is the natural fake or a usable candidate of the window. */
  lemma ChosenFrom4(g: Geometry, h: Hashing, held: set<IPKey>, realIP: IPKey) returns (off: Uint32, v: Uint32)
    requires g.size4 > 0 && g.size6 > 0 && Choose(g, h, held, realIP, false).Some?
    ensures Choose(g, h, held, realIP, false).value == V4Key(v) && V4Key(v) !in held && off < g.size4
    ensures v == Natural4(g, off) || (v == Plus32(g.start4, off) && !Skipped(v))
  {
    if Natural(g, h, realIP, false) !in held {
      off := HashOffset(g, h, realIP, false);
      v := Natural4(g, off);
    } else {
      var from := NaturalOffset(g, h, realIP, false);
      ProbeExact(g, held, false, from, 0);
      var a :| Tried(g, false, from, 0, a) && Choose(g, h, held, realIP, false).value == Candidate(g, false, from, a);
      off := ProbeOffset(g.size4, from, a);
      v := Plus32(g.start4, off);
    }
  }

  lemma NudgeUsable(v: Uint32)
    ensures !Skipped(Nudge(v))
  {
  }

  lemma PlacedInNet4(g: Geometry, off: Uint32, v: Uint32)
    requires WellFormed(g) && off < g.size4
    requires v == Natural4(g, off) || (v == Plus32(g.start4, off) && !Skipped(v))
    ensures !Skipped(v)
    ensures Roomy(g) && g.size4 > 1 ==> InNet4(g, v)
  {
    NudgeUsable(Plus32(g.start4, off));
    if Roomy(g) && g.size4 > 1 {
      OffsetInNet(g, off);
      NudgeStaysInNet(g, Plus32(g.start4, off));
    }
  }

  /** Whatever the hash and the held set, an allocated IPv4 fake is free, does not
      end in .0 or .255, and lies in the advertised net of a roomy pool. */
  lemma ChosenInNet4(g: Geometry, h: Hashing, held: set<IPKey>, realIP: IPKey)
    requires WellFormed(g) && Choose(g, h, held, realIP, false).Some?
    ensures var f := Choose(g, h, held, realIP, false).value;
            && f !in held && IsV4(f) && !Skipped(f - V4_BASE)
            && (Roomy(g) && g.size4 > 1 ==> InNet4(g, f - V4_BASE))
  {
    var off, v := ChosenFrom4(g, h, held, realIP);
    PlacedInNet4(g, off, v);
  }

  lemma ChosenFrom6(g: Geometry, h: Hashing, held: set<IPKey>, realIP: IPKey) returns (off: Uint32)
    requires WellFormed(g) && Choose(g, h, held, realIP, true).Some?
    ensures off < g.size6 && Choose(g, h, held, realIP, true).value == Offset6(g, off) && Offset6(g, off) !in held
    ensures Word(g.start6) + off < POW32
  {
    if Natural(g, h, realIP, true) !in held {
      off := HashOffset(g, h, realIP, true);
    } else {
      var from := NaturalOffset(g, h, realIP, true);
      ProbeExact(g, held, true, from, 0);
      var a :| Tried(g, true, from, 0, a) && Choose(g, h, held, realIP, true).value == Candidate(g, true, from, a);
      off := ProbeOffset(g.size6, from, a);
    }
    OffsetInNet6(g, off);
  }

  /** An allocated IPv6 fake is free and always lies in the advertised net. */
  lemma ChosenInNet6(g: Geometry, h: Hashing, held: set<IPKey>, realIP: IPKey)
    requires WellFormed(g) && Choose(g, h, held, realIP, true).Some?
    ensures var f := Choose(g, h, held, realIP, true).value; f !in held && InNet6(g, f)
  {
    var off := ChosenFrom6(g, h, held, realIP);
    OffsetInNet6(g, off);
  }

  /** The IPv6 pool is not made of IPv4-mapped addresses. */
  predicate NativeV6(g: Geometry) {
    !IsV4(g.start6)
  }

  lemma SameUpper(k: nat, off: Uint32)
    requires Word(k) + off < POW32 && !IsV4(k)
    ensures !IsV4(k + off)
  {
  }

  /** All natural fakes of the IPv4 pool are in its net. */
  predicate Fits4(g: Geometry)
    requires g.size4 > 0
  {
    if g.size4 == 1 then !Skipped(g.start4) else Roomy(g)
  }

  /** An IPv4-mapped IPv6 pool is checked against the IPv4 net; it has to lie in it. */
  predicate Fits6(g: Geometry)
    requires g.size4 > 0 && g.size6 > 0
  {
    NativeV6(g) || (InNet4(g, Word(g.start6)) &&
                    Word(g.start6) + g.size6 - 1 < POW32 && InNet4(g, Word(g.start6) + g.size6 - 1))
  }

  lemma {:induction false} HighMonotone(x: nat, y: nat, k: nat)
    requires x <= y
    ensures High(x, k) <= High(y, k)
  {
    if k > 0 { HighMonotone(x / 2, y / 2, k - 1); }
  }

  /** Of an IPv4-mapped pool, the address at `off` as an IPv4 one. */
  lemma MappedOffset(g: Geometry, off: Uint32)
    requires WellFormed(g) && off < g.size6 && !NativeV6(g)
    ensures IsV4(Offset6(g, off)) && Offset6(g, off) - V4_BASE == Word(g.start6) + off < POW32
  {
    OffsetInNet6(g, off);
  }

  lemma MappedInNet(g: Geometry, off: Uint32)
    requires WellFormed(g) && off < g.size6 && !NativeV6(g) && Fits6(g)
    ensures InSubnet(g, Offset6(g, off))
  {
    MappedOffset(g, off);
    var k, first := CeilLog2(g.size4), Word(g.start6);
    HighMonotone(first, first + off, k);
    HighMonotone(first + off, first + g.size6 - 1, k);
  }

  lemma OnlyAddress(g: Geometry, h: Hashing, held: set<IPKey>, realIP: IPKey)
    requires WellFormed(g) && g.size4 == 1 && Fits4(g) && Choose(g, h, held, realIP, false).Some?
    ensures InSubnet(g, Choose(g, h, held, realIP, false).value)
  {
    var off, v := ChosenFrom4(g, h, held, realIP);
  }

  /** A chosen fake passes the check that peers apply to what they receive. */
  lemma ChosenInSubnet(g: Geometry, h: Hashing, held: set<IPKey>, realIP: IPKey, isV6: bool)
    requires WellFormed(g) && Fits4(g) && Fits6(g) && Choose(g, h, held, realIP, isV6).Some?
    ensures InSubnet(g, Choose(g, h, held, realIP, isV6).value)
  {
    if isV6 {
      ChosenInNet6(g, h, held, realIP);
      var off := ChosenFrom6(g, h, held, realIP);
      OffsetInNet6(g, off);
      if NativeV6(g) { SameUpper(g.start6, off); } else { MappedInNet(g, off); }
    } else if g.size4 == 1 {
      OnlyAddress(g, h, held, realIP);
    } else {
      ChosenInNet4(g, h, held, realIP);
    }
  }

  /** A hash that yields one offset. */
  function ConstantHash(off: Uint32): Hashing {
    Hashing((r: IPKey) => 0, (r: IPKey, isV6: bool) => off)
  }

  /** In an empty pool the natural fake is chosen, and the hash can make it any. */
  lemma AnyNatural(g: Geometry, off: Uint32, isV6: bool)
    requires WellFormed(g) && off < Size(g, isV6)
    ensures Choose(g, ConstantHash(off), {}, 0, isV6) == Some(if isV6 then Offset6(g, off) else V4Key(Natural4(g, off)))
  {
  }

  /** Some hash leads to a fake that peers reject, unless the pools fit their nets. */
  lemma MisfitEscapes(g: Geometry) returns (off: Uint32, isV6: bool)
    requires WellFormed(g) && !(Fits4(g) && Fits6(g))
    ensures off < Size(g, isV6) && !InSubnet(g, Choose(g, ConstantHash(off), {}, 0, isV6).value)
  {
    if !Fits4(g) {
      NaturalInNetIff(g);
      isV6 := false;
      off :| off < g.size4 && !InNet4(g, Natural4(g, off));
    } else {
      isV6 := true;
      MappedOffset(g, 0);
      MappedOffset(g, g.size6 - 1);
      off := if InNet4(g, Word(g.start6)) then g.size6 - 1 else 0;
    }
    AnyNatural(g, off, isV6);
  }

  ghost predicate AlwaysInSubnet(g: Geometry)
    requires g.size4 > 0 && g.size6 > 0
  {
    forall h: Hashing, held: set<IPKey>, r: IPKey, isV6: bool ::
      Choose(g, h, held, r, isV6).Some? ==> InSubnet(g, Choose(g, h, held, r, isV6).value)
  }

  /** Peers accept every fake allocated here, whatever the hash and the fakes held, if
      and only if the pools fit their nets. */
  lemma ChosenInSubnetIff(g: Geometry)
    requires WellFormed(g)
    ensures AlwaysInSubnet(g) <==> Fits4(g) && Fits6(g)
  {
    if Fits4(g) && Fits6(g) {
      forall h: Hashing, held: set<IPKey>, r: IPKey, isV6: bool | Choose(g, h, held, r, isV6).Some?
        ensures InSubnet(g, Choose(g, h, held, r, isV6).value)
      {
        ChosenInSubnet(g, h, held, r, isV6);
      }
    } else {
      var off, isV6 := MisfitEscapes(g);
      AnyNatural(g, off, isV6);
    }
  }

  // ------------------------------------------------------- which pools have room

  /** The sizes that fit above 198.18.0.0 in the net the size implies. */
  predicate FallbackRoom(size: nat) {
    || size <= 131072
    || 262144 < size <= 393216
    || 524288 < size <= 917504
    || 2097152 < size <= 3014656
    || 4194304 < size <= 7208960
    || 8388608 < size <= 15597568
    || 16777216 < size <= 32374784
    || 134217728 < size <= 166592512
    || 268435456 < size <= 435027968
    || 536870912 < size <= 971898880
    || 2147483648 < size
  }

  /** The bits of 198.18.0.0 below 2^k. */
  function FallbackLow(k: nat): nat {
    if k <= 17 then 0 else if k <= 20 then 131072 else if k <= 25 then 1179648
    else if k == 26 then 34734080 else if k <= 30 then 101842944 else 1175584768
  }

  lemma Powers()
    ensures Pow2(17) == 131072 && Pow2(18) == 262144 && Pow2(19) == 524288 && Pow2(20) == 1048576
    ensures Pow2(21) == 2097152 && Pow2(22) == 4194304 && Pow2(23) == 8388608 && Pow2(24) == 16777216
    ensures Pow2(25) == 33554432 && Pow2(26) == 67108864 && Pow2(27) == 134217728 && Pow2(28) == 268435456
    ensures Pow2(29) == 536870912 && Pow2(30) == 1073741824 && Pow2(31) == 2147483648 && Pow2(32) == 4294967296
  {
    assert Pow2(8) == 256;
    assert Pow2(16) == 65536;
    assert Pow2(20) == 1048576;
    assert Pow2(24) == 16777216;
    assert Pow2(28) == 268435456;
  }

  lemma FallbackParts(k: nat, q: nat)
    requires FALLBACK_START == Pow2(k) * q + FallbackLow(k) && FallbackLow(k) < Pow2(k)
    ensures Low(FALLBACK_START, k) == FallbackLow(k)
  {
    PartsUnique(FALLBACK_START, k, q, FallbackLow(k));
  }

  lemma FallbackBitsTo23(k: nat)
    requires 18 <= k <= 23
    ensures Low(FALLBACK_START, k) == FallbackLow(k)
  {
    Powers();
    if k <= 20 {
      FallbackParts(k, if k == 18 then 12676 else if k == 19 then 6338 else 3169);
    } else {
      FallbackParts(k, if k == 21 then 1584 else if k == 22 then 792 else 396);
    }
  }

  lemma FallbackBitsTo31(k: nat)
    requires 24 <= k <= 31
    ensures Low(FALLBACK_START, k) == FallbackLow(k)
  {
    Powers();
    if k <= 27 {
      FallbackParts(k, if k == 24 then 198 else if k == 25 then 99 else if k == 26 then 49 else 24);
    } else {
      FallbackParts(k, if k == 28 then 12 else if k == 29 then 6 else if k == 30 then 3 else 1);
    }
  }

  lemma FallbackRoomAt(size: nat, k: nat)
    requires 18 <= k <= 31 && Pow2(k - 1) < size <= Pow2(k)
    ensures FallbackLow(k) + size <= Pow2(k) <==> FallbackRoom(size)
  {
    Powers();
  }

  /** Which configurations leave the pool room: a base that does not mask to zero, and
      otherwise exactly the sizes listed above. */
  lemma ConfiguredRoomyIff(size4: Uint32, size6: Uint32, base4: Option<Uint32>, base6: Option<Uint128>)
    ensures var g := NewGeometry(size4, size6, base4, base6);
            Roomy(g) <==> (base4.Some? && Masked(base4.value, CeilLog2(g.size4)) != 0) || FallbackRoom(g.size4)
  {
    var g := NewGeometry(size4, size6, base4, base6);
    NewGeometryWellFormed(size4, size6, base4, base6);
    assert g.start4 == Start4(g.size4, base4);
    StartRoomy(g, base4);
  }

  lemma StartRoomy(g: Geometry, base4: Option<Uint32>)
    requires WellFormed(g) && g.start4 == Start4(g.size4, base4)
    ensures Roomy(g) <==> (base4.Some? && Masked(base4.value, CeilLog2(g.size4)) != 0) || FallbackRoom(g.size4)
  {
    if base4.Some? && Masked(base4.value, CeilLog2(g.size4)) != 0 {
      MaskedParts(base4.value, CeilLog2(g.size4));
    } else {
      FallbackRoomy(g);
    }
  }

  lemma FallbackRoomy(g: Geometry)
    requires WellFormed(g) && g.start4 == FALLBACK_START
    ensures Roomy(g) <==> FallbackRoom(g.size4)
  {
    var k := CeilLog2(g.size4);
    Powers();
    CeilLog2AtMost(g.size4, 17);
    CeilLog2AtMost(g.size4, 31);
    FallbackAligned(k);
    if 18 <= k <= 31 {
      if k <= 23 { FallbackBitsTo23(k); } else { FallbackBitsTo31(k); }
      FallbackRoomAt(g.size4, k);
    }
  }

  lemma FallbackAligned(k: nat)
    ensures Low(FALLBACK_START, k) == 0 <==> k <= 17
  {
    Pow2Values();
    if k <= 17 {
      Pow2Split(k, 17);
      MulAssociates(Pow2(k), Pow2(17 - k), 25353);
      MultipleLow(k, Pow2(17 - k) * 25353);
    } else {
      Parts(FALLBACK_START, k);
      Pow2Split(18, k);
      assert Pow2(18) == 262144;
      MulAssociates(262144, Pow2(k - 18), High(FALLBACK_START, k));
    }
  }

  /** The fallback start 198.18.0.0 suits a pool of a power of two exactly up to
      the default size: with 2^18 up to 2^31 addresses some fakes lie outside the
      advertised net. */
  lemma FallbackEscapes(k: nat, g: Geometry)
    requires 18 <= k <= 31 && WellFormed(g) && g.size4 == Pow2(k) && g.start4 == FALLBACK_START
    ensures exists off: Uint32 :: off < g.size4 && !InNet4(g, Natural4(g, off))
  {
    CeilLog2OfPow2(k);
    FallbackAligned(k);
    Pow2Monotone(1, k);
    assert !Roomy(g);
    NaturalInNetIff(g);
  }
}
