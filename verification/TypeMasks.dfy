/** type.h: every registered type carries its own bit and the bits of its bases; inheritance is read off the masks. */
module TypeMasks {
  import opened Common
  import opened Bits
  import C = TypeCounter

  /** A type named in the list of bases: void, or the n-th registered type. */
  datatype Ref = Void | Type(n: nat)

  /** The registered types in order: the bases of each, and the number its registration read from the counter. */
  datatype Registry = Registry(bases: seq<seq<Ref>>, ids: seq<nat>)

  predicate Below(bases: seq<Ref>, bound: nat) {
    forall r | r in bases && r.Type? :: r.n < bound
  }

  /** Each type is registered after its bases. */
  predicate WellFormed(reg: Registry) {
    |reg.ids| == |reg.bases| && forall k | 0 <= k < |reg.bases| :: Below(reg.bases[k], k)
  }

  /** There are at most 32 types, numbered in order. */
  predicate Numbered(reg: Registry) {
    WellFormed(reg) && |reg.bases| <= 32 && forall k | 0 <= k < |reg.ids| :: reg.ids[k] == k
  }

  predicate Known(reg: Registry, r: Ref) {
    r.Type? ==> r.n < |reg.bases|
  }

  /** `1 << n` computed as an int and then widened to uint64_t by the `|` with the bases. From n = 32 on the shift is
      undefined; the zero this function gives there is one reading of it. */
  function ShiftedOne(n: nat): nat {
    ToWord(ToInt32(Pow2(n)))
  }

  lemma Pow2Of31()
    ensures Pow2(31) == INT_LIMIT
  {
    Pow2Sum(2, 2);
    Pow2Sum(4, 4);
    Pow2Sum(8, 8);
    Pow2Sum(16, 16);
  }

  lemma Widened(x: nat)
    ensures x < INT_LIMIT ==> ToWord(ToInt32(x)) == x
    ensures x == INT_LIMIT ==> ToWord(ToInt32(x)) == WORD - INT_LIMIT
  {
  }

  /** As long as the shift is defined, it yields the single bit n for n < 31, and for n = 31 the bits 31 to 63. */
  lemma ShiftedBits(n: nat, j: nat)
    requires n < 32
    ensures Bit(ShiftedOne(n), j) <==> if n < 31 then j == n else 31 <= j < 64
  {
    Pow2Of31();
    Widened(Pow2(n));
    if n < 31 {
      Pow2Grows(n, 31);
      Pow2Bit(n, j);
    } else {
      WordIsPow2();
      Pow2Sum(31, 33);
      assert Pow2(31) * (Pow2(33) - 1) == WORD - INT_LIMIT;
      ShiftedUp(Pow2(33) - 1, 31, j);
      if j >= 31 { OnesBits(33, j - 31); }
    }
  }

  /** Of the 32 defined shifts, the first 31 and no other are single bits. */
  lemma ShiftIsOneBit(n: nat)
    requires n < 32
    ensures ShiftedOne(n) == Pow2(n) <==> n < 31
  {
    Pow2Of31();
    Widened(Pow2(n));
    if n < 31 { Pow2Grows(n, 31); }
  }

  /** static_typeid. */
  function Mask(reg: Registry, r: Ref): nat
    requires WellFormed(reg) && Known(reg, r)
    decreases if r.Void? then 0 else r.n + 1, 0
  {
    match r
    case Void => 0
    case Type(n) => Or(ShiftedOne(reg.ids[n]), Types(reg, reg.bases[n], n))
  }

  /** extends<...>::types(). */
  function Types(reg: Registry, bases: seq<Ref>, bound: nat): nat
    requires WellFormed(reg) && bound <= |reg.bases| && Below(bases, bound)
    decreases bound, |bases|
  {
    if bases == [] then 0 else Or(Mask(reg, bases[0]), Types(reg, bases[1..], bound))
  }

  predicate IsRelatedTo(reg: Registry, a: Ref, b: Ref)
    requires WellFormed(reg) && Known(reg, a) && Known(reg, b)
  {
    And(Mask(reg, a), Mask(reg, b)) != 0
  }

  predicate IsDerivedOf(reg: Registry, derived: Ref, base: Ref)
    requires WellFormed(reg) && Known(reg, derived) && Known(reg, base)
  {
    IsRelatedTo(reg, derived, base) && Or(Mask(reg, derived), Mask(reg, base)) == Mask(reg, derived)
  }

  // ----- the relation the test is meant to compute

  /** A chain of direct inheritance, from derived to base. */
  predicate Chain(reg: Registry, p: seq<nat>) {
    && p != []
    && (forall i | 0 <= i < |p| :: p[i] < |reg.bases|)
    && (forall i | 0 <= i < |p| - 1 :: Type(p[i + 1]) in reg.bases[p[i]])
  }

  ghost predicate Ancestor(reg: Registry, d: nat, b: nat) {
    exists p :: Chain(reg, p) && p[0] == d && p[|p| - 1] == b
  }

  lemma AncestorStep(reg: Registry, d: nat, m: nat, b: nat)
    requires d < |reg.bases| && Type(m) in reg.bases[d] && Ancestor(reg, m, b)
    ensures Ancestor(reg, d, b)
  {
    var p :| Chain(reg, p) && p[0] == m && p[|p| - 1] == b;
    var q := [d] + p;
    assert Chain(reg, q) by {
      forall i | 0 <= i < |q| - 1 ensures Type(q[i + 1]) in reg.bases[q[i]] {
        if i > 0 { assert q[i] == p[i - 1] && q[i + 1] == p[i]; }
      }
    }
  }

  lemma AncestorSelf(reg: Registry, d: nat)
    requires d < |reg.bases|
    ensures Ancestor(reg, d, d)
  {
    assert Chain(reg, [d]);
  }

  lemma AncestorCases(reg: Registry, d: nat, b: nat) returns (m: nat)
    requires Ancestor(reg, d, b) && d != b
    ensures d < |reg.bases| && Type(m) in reg.bases[d] && Ancestor(reg, m, b)
  {
    var p :| Chain(reg, p) && p[0] == d && p[|p| - 1] == b;
    m := p[1];
    var q := p[1..];
    assert Chain(reg, q) by {
      forall i | 0 <= i < |q| - 1 ensures Type(q[i + 1]) in reg.bases[q[i]] {
        assert q[i] == p[i + 1] && q[i + 1] == p[i + 2];
      }
    }
  }

  lemma {:induction false} AncestorTransitive(reg: Registry, a: nat, b: nat, c: nat)
    requires WellFormed(reg) && Ancestor(reg, a, b) && Ancestor(reg, b, c)
    ensures Ancestor(reg, a, c)
    decreases a
  {
    if a != b {
      var m := AncestorCases(reg, a, b);
      assert Below(reg.bases[a], a);
      AncestorTransitive(reg, m, b, c);
      AncestorStep(reg, a, m, c);
    }
  }

  // ----- the masks compute it

  ghost predicate SomeBaseHas(reg: Registry, bases: seq<Ref>, j: nat)
    requires WellFormed(reg) && Below(bases, |reg.bases|)
  {
    exists r :: r in bases && Bit(Mask(reg, r), j)
  }

  lemma {:induction false} TypesBit(reg: Registry, bases: seq<Ref>, bound: nat, j: nat)
    requires WellFormed(reg) && bound <= |reg.bases| && Below(bases, bound)
    ensures Bit(Types(reg, bases, bound), j) <==> SomeBaseHas(reg, bases, j)
  {
    if bases == [] {
      ZeroHasNoBit(j);
    } else {
      OrBit(Mask(reg, bases[0]), Types(reg, bases[1..], bound), j);
      TypesBit(reg, bases[1..], bound, j);
      assert bases == [bases[0]] + bases[1..];
    }
  }

  /** The type a bit of a mask speaks of: the 32nd has all the bits from 31 on. */
  function Slot(j: nat): nat {
    if j < 31 then j else 31
  }

  lemma AncestorKnown(reg: Registry, d: nat, j: nat)
    requires Ancestor(reg, d, j)
    ensures d < |reg.bases| && j < |reg.bases|
  {
  }

  /** The bits of a type's mask are exactly its reflexive ancestors. */
  lemma {:induction false} MaskIsAncestors(reg: Registry, d: nat, j: nat)
    requires Numbered(reg) && d < |reg.bases|
    ensures Bit(Mask(reg, Type(d)), j) <==> j < 64 && Ancestor(reg, d, Slot(j))
    decreases d
  {
    var bases, k := reg.bases[d], Slot(j);
    assert Below(bases, d);
    OrBit(ShiftedOne(d), Types(reg, bases, d), j);
    ShiftedBits(d, j);
    TypesBit(reg, bases, d, j);
    if j < 64 && k == d {
      AncestorSelf(reg, d);
    } else {
      if j < 64 && Ancestor(reg, d, k) {
        var m := AncestorCases(reg, d, k);
        MaskIsAncestors(reg, m, j);
        assert SomeBaseHas(reg, bases, j);
      }
      if Bit(Mask(reg, Type(d)), j) {
        var r :| r in bases && Bit(Mask(reg, r), j);
        ZeroHasNoBit(j);
        MaskIsAncestors(reg, r.n, j);
        AncestorStep(reg, d, r.n, k);
      }
    }
  }

  /** is_related_to holds exactly of two registered types that share a reflexive ancestor. */
  lemma RelatedIffCommonAncestor(reg: Registry, a: Ref, b: Ref)
    requires Numbered(reg) && Known(reg, a) && Known(reg, b)
    ensures IsRelatedTo(reg, a, b) <==>
              a.Type? && b.Type? && exists j :: Ancestor(reg, a.n, j) && Ancestor(reg, b.n, j)
  {
    var x := And(Mask(reg, a), Mask(reg, b));
    if x != 0 {
      var j := NonZeroHasBit(x);
      AndBit(Mask(reg, a), Mask(reg, b), j);
      ZeroHasNoBit(j);
      MaskIsAncestors(reg, a.n, j);
      MaskIsAncestors(reg, b.n, j);
    } else if a.Type? && b.Type? {
      forall j: nat | Ancestor(reg, a.n, j) ensures !Ancestor(reg, b.n, j) {
        AncestorKnown(reg, a.n, j);
        AndBit(Mask(reg, a), Mask(reg, b), j);
        ZeroHasNoBit(j);
        MaskIsAncestors(reg, a.n, j);
        MaskIsAncestors(reg, b.n, j);
      }
    }
  }

  /** is_derived_of holds exactly when the second type is the first or one of its transitive bases. */
  lemma DerivedIffAncestor(reg: Registry, d: Ref, b: Ref)
    requires Numbered(reg) && Known(reg, d) && Known(reg, b)
    ensures IsDerivedOf(reg, d, b) <==> d.Type? && b.Type? && Ancestor(reg, d.n, b.n)
  {
    RelatedIffCommonAncestor(reg, d, b);
    if d.Type? && b.Type? {
      var x, y := Mask(reg, d), Mask(reg, b);
      AncestorSelf(reg, b.n);
      MaskIsAncestors(reg, b.n, b.n);
      MaskIsAncestors(reg, d.n, b.n);
      OrBit(x, y, b.n);
      if Ancestor(reg, d.n, b.n) {
        forall k: nat ensures Bit(Or(x, y), k) <==> Bit(x, k) {
          OrBit(x, y, k);
          MaskIsAncestors(reg, d.n, k);
          MaskIsAncestors(reg, b.n, k);
          if Ancestor(reg, b.n, Slot(k)) { AncestorTransitive(reg, d.n, b.n, Slot(k)); }
        }
        SameBits(Or(x, y), x);
      }
    }
  }

  /** Up to 31 types no mask uses a bit beyond the registered types; with 32 they all still fit type_t. */
  lemma MaskFits(reg: Registry, r: Ref)
    requires Numbered(reg) && Known(reg, r)
    ensures Mask(reg, r) < if |reg.bases| <= 31 then Pow2(|reg.bases|) else WORD
  {
    var n := if |reg.bases| <= 31 then |reg.bases| else 64;
    WordIsPow2();
    forall j: nat | j >= n ensures !Bit(Mask(reg, r), j) {
      if r.Void? {
        ZeroHasNoBit(j);
      } else {
        MaskIsAncestors(reg, r.n, j);
        if Ancestor(reg, r.n, Slot(j)) { AncestorKnown(reg, r.n, Slot(j)); }
      }
    }
    NoHighBits(Mask(reg, r), n);
  }

  // ----- the limit of 32 is exact

  /** Whatever int x the undefined 33rd shift may be, its mask is empty or meets that of an earlier type. */
  lemma NoThirtyThirdMask(x: int)
    requires -INT_LIMIT <= x < INT_LIMIT
    ensures ToWord(x) == 0 || exists k | 0 <= k < 32 :: And(ShiftedOne(k), ToWord(x)) != 0
  {
    if ToWord(x) != 0 {
      var j := NonZeroHasBit(ToWord(x));
      WordIsPow2();
      HasBitBelow(ToWord(x), 64, j);
      ShiftedBits(Slot(j), j);
      AndBit(ShiftedOne(Slot(j)), ToWord(x), j);
      ZeroHasNoBit(j);
    }
  }

  /** So with 33 types without bases the test errs: two of them count as related, or the last is not related to
      itself. */
  lemma ThirtyThreeTypesAreTooMany(reg: Registry)
    requires WellFormed(reg) && |reg.bases| == 33 && forall k | 0 <= k < 33 :: reg.bases[k] == [] && reg.ids[k] == k
    ensures !IsRelatedTo(reg, Type(32), Type(32)) || exists k | 0 <= k < 32 :: IsRelatedTo(reg, Type(k), Type(32))
  {
    var x := ToInt32(Pow2(32));
    NoThirtyThirdMask(x);
    OrZero(ShiftedOne(32));
    if ToWord(x) == 0 {
      assert Mask(reg, Type(32)) == 0;
    } else {
      var k :| 0 <= k < 32 && And(ShiftedOne(k), ToWord(x)) != 0;
      OrZero(ShiftedOne(k));
      assert Mask(reg, Type(k)) == ShiftedOne(k);
      assert IsRelatedTo(reg, Type(k), Type(32));
    }
  }

  // ----- a whole translation unit

  /** The test on the numbers a translation unit really reads: any number of other uses of __COUNTER__ around and
      inside the registrations, any inheritance DAG of up to 32 types. */
  lemma InheritanceTestIsExact(counter: nat, gaps: seq<(nat, nat)>, bases: seq<seq<Ref>>, d: Ref, b: Ref)
    requires |gaps| == |bases| <= 32 && forall k | 0 <= k < |bases| :: Below(bases[k], k)
    requires (d.Type? ==> d.n < |bases|) && (b.Type? ==> b.n < |bases|)
    ensures C.Sane(C.Declare(counter))
    ensures var reg := Registry(bases, C.Run(C.Declare(counter), C.Registrations(gaps)).results);
            && WellFormed(reg)
            && (IsDerivedOf(reg, d, b) <==> d.Type? && b.Type? && Ancestor(reg, d.n, b.n))
            && (IsRelatedTo(reg, d, b) <==>
                  d.Type? && b.Type? && exists j :: Ancestor(reg, d.n, j) && Ancestor(reg, b.n, j))
  {
    C.ReadsCountIncrements(counter, []);
    var ids := C.Run(C.Declare(counter), C.Registrations(gaps)).results;
    var reg := Registry(bases, ids);
    assert |ids| == |gaps| by {
      if gaps != [] { C.KthRegistrationReadsK(counter, gaps, 0); } else { assert C.Registrations(gaps) == []; }
    }
    forall k: nat | k < |gaps| ensures ids[k] == k {
      C.KthRegistrationReadsK(counter, gaps, k);
    }
    assert Numbered(reg);
    DerivedIffAncestor(reg, d, b);
    RelatedIffCommonAncestor(reg, d, b);
  }
}
