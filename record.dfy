/** Normalization and classification of a single variant record (src/record.rs).

    A variant is a position and two alleles, the reference and the alternate.
    `Normalize` validates the alleles, trims the symbols the two alleles share
    at their right ends, then the symbols they share at their left ends
    (advancing the position by that many), always keeping at least one symbol
    in each allele. `VariantTypeOf` classifies an allele pair.

    Every result allele is a slice of the corresponding input allele: the
    trims only choose the bounds, they never build new text. */
module Record {
  import opened Errors
  import opened Lib

  /** The sixteen upper-case IUPAC nucleotide codes an allele may use. */
  const AlleleSymbols: set<char> :=
    {'A', 'C', 'G', 'T', 'U', 'R', 'Y', 'K', 'M', 'S', 'W', 'B', 'D', 'H', 'V', 'N'}

  /** An allele is well formed when it is non-empty and every one of its
      symbols is in the alphabet (the whole string is matched). */
  predicate IsAlleles(s: string)
  {
    |s| > 0 && forall k :: 0 <= k < |s| ==> s[k] in AlleleSymbols
  }

  /** The match is anchored: a single symbol outside the alphabet anywhere
      rejects the allele. A well-formed allele is ASCII, so its symbols and
      its bytes are the same thing. */
  lemma IsAllelesAnchored(s: string)
    ensures !IsAlleles(s) <==> |s| == 0 || exists k :: 0 <= k < |s| && s[k] !in AlleleSymbols
    ensures IsAlleles(s) ==> forall k :: 0 <= k < |s| ==> s[k] as int < 128
  {
  }

  /** A normalized variant, or an intermediate result of the trims. */
  datatype Variant = Variant(position: nat, reference: string, alternate: string)

  // ---------------------------------------------------------------------
  // Counting shared symbols
  // ---------------------------------------------------------------------

  /** The number of leading symbol pairs of `r` and `a` that are equal,
      counted up to the first mismatch or until one of them runs out. */
  function SharedCount(r: string, a: string): (i: nat)
    ensures i <= |r| && i <= |a|
    ensures r[..i] == a[..i]
    ensures i == |r| || i == |a| || r[i] != a[i]
    decreases |r|
  {
    if |r| == 0 || |a| == 0 || r[0] != a[0] then 0
    else
      var rest := SharedCount(r[1..], a[1..]);
      assert r[..rest + 1] == [r[0]] + r[1..][..rest];
      assert a[..rest + 1] == [a[0]] + a[1..][..rest];
      1 + rest
  }

  /** The loop of `count_shared`: step both inputs together, counting equal
      pairs, and stop at the first mismatch or when either input is exhausted. */
  method CountShared(r: string, a: string) returns (i: nat)
    ensures i <= |r| && i <= |a|
    ensures forall k :: 0 <= k < i ==> r[k] == a[k]
    ensures i == |r| || i == |a| || r[i] != a[i]
    ensures i == SharedCount(r, a)
  {
    i := 0;
    while i < |r| && i < |a|
      invariant i <= |r| && i <= |a|
      invariant i <= SharedCount(r, a)
    {
      if r[i] == a[i] {
        i := i + 1;
      } else {
        break;
      }
    }
    assert r[..i] == a[..i] by {
      assert r[..i] == r[..SharedCount(r, a)][..i];
      assert a[..i] == a[..SharedCount(r, a)][..i];
    }
    assert forall k :: 0 <= k < i ==> r[k] == r[..i][k] && a[k] == a[..i][k];
  }

  /** The symbols of `s` in reverse order, as `chars().rev()` yields them. */
  function Reversed(s: string): (r: string)
    ensures |r| == |s|
    ensures forall k :: 0 <= k < |s| ==> r[|s| - 1 - k] == s[k]
  {
    seq(|s|, k requires 0 <= k < |s| => s[|s| - 1 - k])
  }

  /** Reversing twice gives the string back. */
  lemma ReversedTwice(s: string)
    ensures Reversed(Reversed(s)) == s
  {
    var r := Reversed(s);
    forall k | 0 <= k < |s|
      ensures Reversed(r)[k] == s[k]
    {
      assert Reversed(r)[k] == r[|s| - 1 - k];
    }
  }

  /** Counting shared symbols of the reversed alleles counts their shared
      trailing symbols. */
  lemma SharedCountReversed(r: string, a: string)
    ensures var i := SharedCount(Reversed(r), Reversed(a));
      i <= |r| && i <= |a| &&
      r[|r| - i..] == a[|a| - i..] &&
      (i == |r| || i == |a| || r[|r| - 1 - i] != a[|a| - 1 - i])
  {
    var rr, ra := Reversed(r), Reversed(a);
    var i := SharedCount(rr, ra);
    forall m | |r| - i <= m < |r|
      ensures r[m] == a[m - |r| + |a|]
    {
      var j := |r| - 1 - m;
      assert rr[..i][j] == ra[..i][j];
    }
    assert r[|r| - i..] == a[|a| - i..];
    if i < |r| && i < |a| {
      assert rr[i] == r[|r| - 1 - i];
      assert ra[i] == a[|a| - 1 - i];
    }
  }

  // ---------------------------------------------------------------------
  // The two trims
  // ---------------------------------------------------------------------

  /** The last symbols differ, or one allele is down to a single symbol. */
  predicate TrailingMinimal(r: string, a: string)
  {
    0 < |r| && 0 < |a| && (|r| == 1 || |a| == 1 || r[|r| - 1] != a[|a| - 1])
  }

  /** The first symbols differ, or one allele is down to a single symbol. */
  predicate LeadingMinimal(r: string, a: string)
  {
    0 < |r| && 0 < |a| && (|r| == 1 || |a| == 1 || r[0] != a[0])
  }

  /** `r` and `a` are what the trailing trim may leave of `reference` and
      `alternate`: non-empty prefixes of them, shortened by the same amount,
      with equal removed suffixes, and minimal at their right ends. */
  predicate IsTrailingTrimOf(r: string, a: string, reference: string, alternate: string)
  {
    0 < |r| <= |reference| && 0 < |a| <= |alternate| &&
    r == reference[..|r|] && a == alternate[..|a|] &&
    |reference| - |r| == |alternate| - |a| &&
    reference[|r|..] == alternate[|a|..] &&
    TrailingMinimal(r, a)
  }

  /** `v` is what the leading trim may make of (position, reference,
      alternate): with k = v.position - position below both lengths (so both
      results are non-empty), the results are the inputs from k, the removed
      prefixes are equal, and the results are minimal at their left ends. */
  predicate IsLeadingTrimOf(v: Variant, position: nat, reference: string, alternate: string)
  {
    position <= v.position &&
    v.position - position < |reference| && v.position - position < |alternate| &&
    v.reference == reference[v.position - position..] &&
    v.alternate == alternate[v.position - position..] &&
    reference[..v.position - position] == alternate[..v.position - position] &&
    LeadingMinimal(v.reference, v.alternate)
  }

  /** Removes the trailing symbols the two alleles share; when that would empty
      either allele, one shared symbol is kept on both. */
  function TrimTrailingSharedBases(reference: string, alternate: string): (trimmed: (string, string))
    requires |reference| > 0 && |alternate| > 0
    ensures IsTrailingTrimOf(trimmed.0, trimmed.1, reference, alternate)
  {
    SharedCountReversed(reference, alternate);
    var i := SharedCount(Reversed(reference), Reversed(alternate));
    var p1: nat := |reference| - i;
    var p2: nat := |alternate| - i;
    if p1 == 0 || p2 == 0 then
      (reference[0..p1 + 1], alternate[0..p2 + 1])
    else
      (reference[0..p1], alternate[0..p2])
  }

  /** Removes the leading symbols the two alleles share and advances the
      position by as many; when that would empty either allele, one shared
      symbol is kept on both as the anchor. */
  function TrimLeadingSharedBases(position: nat, reference: string, alternate: string): (v: Variant)
    requires |reference| > 0 && |alternate| > 0
    ensures IsLeadingTrimOf(v, position, reference, alternate)
  {
    var shared := SharedCount(reference, alternate);
    var i: nat := if shared == |reference| || shared == |alternate| then shared - 1 else shared;
    Variant(position + i, reference[i..], alternate[i..])
  }

  // ---------------------------------------------------------------------
  // normalize
  // ---------------------------------------------------------------------

  /** Keeping `reference[..e1]` and `alternate[..e2]` removes equal suffixes
      of the same length, and as many trailing symbols as the trailing trim
      may: the symbols just before the cut differ, or one kept part is a
      single symbol. */
  predicate TrailingCut(reference: string, alternate: string, e1: nat, e2: nat)
  {
    1 <= e1 <= |reference| && 1 <= e2 <= |alternate| &&
    |reference| - e1 == |alternate| - e2 &&
    reference[e1..] == alternate[e2..] &&
    (e1 == 1 || e2 == 1 || reference[e1 - 1] != alternate[e2 - 1])
  }

  /** `v` is a normal form of the variant (position, reference, alternate):
      with k = v.position - position, v.reference is reference[k..e1] and
      v.alternate is alternate[k..e2], both non-empty; the removed prefixes are
      equal, the removed suffixes are equal and have the same length; the
      suffix is as long as the trailing trim allows on the inputs; and no
      further symbol can be trimmed from either end. */
  predicate IsNormalizationOf(v: Variant, position: nat, reference: string, alternate: string)
  {
    position <= v.position &&
    var k := v.position - position;
    var e1 := k + |v.reference|;
    var e2 := k + |v.alternate|;
    TrailingCut(reference, alternate, e1, e2) &&
    v.reference == reference[k..e1] && v.alternate == alternate[k..e2] &&
    reference[..k] == alternate[..k] &&
    LeadingMinimal(v.reference, v.alternate) &&
    TrailingMinimal(v.reference, v.alternate)
  }

  /** Validates the alleles, then trims shared trailing and shared leading
      symbols. The checks run in a fixed order and the first failure wins. */
  function Normalize(position: nat, reference: string, alternate: string): (res: Result<Variant>)
    ensures res.Ok? <==> IsAlleles(reference) && IsAlleles(alternate)
    ensures |reference| == 0 ==> res == Err(RefBasesEmptyError)
    ensures |reference| > 0 && |alternate| == 0 ==> res == Err(AltBasesEmptyError)
    ensures |reference| > 0 && |alternate| > 0 && !IsAlleles(reference) ==>
      res == Err(RefBasesInvalidSymbolError(reference))
    ensures IsAlleles(reference) && |alternate| > 0 && !IsAlleles(alternate) ==>
      res == Err(AltBasesInvalidSymbolError(alternate))
    ensures res.Ok? ==> IsNormalizationOf(res.value, position, reference, alternate)
  {
    if |reference| == 0 then Err(RefBasesEmptyError)
    else if |alternate| == 0 then Err(AltBasesEmptyError)
    else if !IsAlleles(reference) then Err(RefBasesInvalidSymbolError(reference))
    else if !IsAlleles(alternate) then Err(AltBasesInvalidSymbolError(alternate))
    else Ok(TrimSharedBases(position, reference, alternate))
  }

  /** The success path of `Normalize`: the trailing trim, then the leading
      trim on its result. */
  function TrimSharedBases(position: nat, reference: string, alternate: string): (v: Variant)
    requires |reference| > 0 && |alternate| > 0
    ensures IsNormalizationOf(v, position, reference, alternate)
  {
    var trimmed := TrimTrailingSharedBases(reference, alternate);
    var v := TrimLeadingSharedBases(position, trimmed.0, trimmed.1);
    TrimsComposeToNormalization(position, reference, alternate, trimmed.0, trimmed.1, v);
    v
  }

  /** The trailing trim followed by the leading trim yields a normal form:
      whatever the trailing trim may leave, (r, a), and whatever the leading
      trim may then make of it, v, is a normal form of the input. */
  lemma TrimsComposeToNormalization(position: nat, reference: string, alternate: string,
                                    r: string, a: string, v: Variant)
    requires IsTrailingTrimOf(r, a, reference, alternate)
    requires IsLeadingTrimOf(v, position, r, a)
    ensures IsNormalizationOf(v, position, reference, alternate)
  {
    var k := v.position - position;
    assert v.reference == reference[k..|r|];
    assert v.alternate == alternate[k..|a|];
  }

  /** The normal form is unique: any variant meeting `IsNormalizationOf` is
      the one `Normalize` returns. Together with the contract of `Normalize`
      this makes `IsNormalizationOf` a complete description of the result. */
  lemma {:induction false} NormalizeIsUnique(position: nat, reference: string, alternate: string, v: Variant)
    requires IsAlleles(reference) && IsAlleles(alternate)
    requires IsNormalizationOf(v, position, reference, alternate)
    ensures Normalize(position, reference, alternate) == Ok(v)
  {
    var res := Normalize(position, reference, alternate);
    NormalFormsAgree(position, reference, alternate, v, res.value);
  }

  /** Two normal forms of the same variant are equal. */
  lemma NormalFormsAgree(position: nat, reference: string, alternate: string, v: Variant, w: Variant)
    requires IsNormalizationOf(v, position, reference, alternate)
    requires IsNormalizationOf(w, position, reference, alternate)
    ensures v == w
  {
    NormalFormsEndTogether(position, reference, alternate, v, w);
    NormalFormsStartTogether(position, reference, alternate, v, w);
  }

  /** Two normal forms of the same variant remove the same trailing symbols. */
  lemma NormalFormsEndTogether(position: nat, reference: string, alternate: string, v: Variant, w: Variant)
    requires IsNormalizationOf(v, position, reference, alternate)
    requires IsNormalizationOf(w, position, reference, alternate)
    ensures v.position - position + |v.reference| == w.position - position + |w.reference|
  {
    var kv, kw := v.position - position, w.position - position;
    var ev1, ev2 := kv + |v.reference|, kv + |v.alternate|;
    var ew1, ew2 := kw + |w.reference|, kw + |w.alternate|;
    SuffixCutsAgree(reference, alternate, ev1, ev2, ew1, ew2);
  }

  /** Two normal forms of the same variant that remove the same trailing
      symbols also remove the same leading symbols. */
  lemma NormalFormsStartTogether(position: nat, reference: string, alternate: string, v: Variant, w: Variant)
    requires IsNormalizationOf(v, position, reference, alternate)
    requires IsNormalizationOf(w, position, reference, alternate)
    requires v.position - position + |v.reference| == w.position - position + |w.reference|
    ensures v.position == w.position
  {
    var kv, kw := v.position - position, w.position - position;
    var ev1, ev2 := kv + |v.reference|, kv + |v.alternate|;
    PrefixCutsAgree(reference, alternate, kv, kw, ev1, ev2);
    PrefixCutsAgree(reference, alternate, kw, kv, ev1, ev2);
  }

  /** There is only one trailing cut: both remove the longest equal suffix
      the trailing trim allows. */
  lemma SuffixCutsAgree(reference: string, alternate: string, e1: nat, e2: nat, f1: nat, f2: nat)
    requires TrailingCut(reference, alternate, e1, e2)
    requires TrailingCut(reference, alternate, f1, f2)
    ensures e1 == f1 && e2 == f2
  {
  }

  /** Two leading cuts of which the first is maximal: the first removes at
      least as many symbols as the second. */
  lemma PrefixCutsAgree(reference: string, alternate: string, k: nat, j: nat, e1: nat, e2: nat)
    requires e1 <= |reference| && e2 <= |alternate|
    requires k < e1 && k < e2 && j < e1 && j < e2
    requires reference[..j] == alternate[..j]
    requires LeadingMinimal(reference[k..e1], alternate[k..e2])
    ensures j <= k
  {
  }

  /** Normalizing a normalized variant changes nothing. */
  lemma {:induction false} NormalizeIsIdempotent(position: nat, reference: string, alternate: string)
    requires IsAlleles(reference) && IsAlleles(alternate)
    ensures var v := Normalize(position, reference, alternate).value;
      Normalize(v.position, v.reference, v.alternate) == Ok(v)
  {
    var v := Normalize(position, reference, alternate).value;
    NormalFormIsItsOwn(position, reference, alternate, v);
    NormalizeIsUnique(v.position, v.reference, v.alternate, v);
  }

  /** A normal form of valid alleles has valid alleles and is its own normal
      form. */
  lemma NormalFormIsItsOwn(position: nat, reference: string, alternate: string, v: Variant)
    requires IsAlleles(reference) && IsAlleles(alternate)
    requires IsNormalizationOf(v, position, reference, alternate)
    ensures IsAlleles(v.reference) && IsAlleles(v.alternate)
    ensures IsNormalizationOf(v, v.position, v.reference, v.alternate)
  {
    var k := v.position - position;
    SliceIsAlleles(reference, k, k + |v.reference|);
    SliceIsAlleles(alternate, k, k + |v.alternate|);
    MinimalIsNormalForm(v);
  }

  /** A variant minimal at both ends is its own normal form. */
  lemma MinimalIsNormalForm(v: Variant)
    requires LeadingMinimal(v.reference, v.alternate)
    requires TrailingMinimal(v.reference, v.alternate)
    ensures IsNormalizationOf(v, v.position, v.reference, v.alternate)
  {
    assert v.reference[0..|v.reference|] == v.reference;
    assert v.alternate[0..|v.alternate|] == v.alternate;
  }

  /** A non-empty slice of a well-formed allele is well formed. */
  lemma SliceIsAlleles(s: string, i: nat, j: nat)
    requires IsAlleles(s) && i < j <= |s|
    ensures IsAlleles(s[i..j])
  {
    forall m | 0 <= m < j - i
      ensures s[i..j][m] in AlleleSymbols
    {
      assert s[i..j][m] == s[i + m];
    }
  }

  /** Identical alleles keep the position and shrink to their first symbol. */
  lemma {:induction false} NormalizeIdentical(position: nat, s: string)
    requires IsAlleles(s)
    ensures Normalize(position, s, s) == Ok(Variant(position, s[..1], s[..1]))
  {
    IdenticalNormalForm(position, s);
    NormalizeIsUnique(position, s, s, Variant(position, s[..1], s[..1]));
  }

  /** The first symbol alone is a normal form of a pair of identical alleles. */
  lemma IdenticalNormalForm(position: nat, s: string)
    requires |s| > 0
    ensures IsNormalizationOf(Variant(position, s[..1], s[..1]), position, s, s)
  {
    assert s[..1] == s[0..1];
  }

  /** A valid variant normalizes to a pair without a type exactly when its
      two alleles were identical to begin with. */
  lemma {:induction false} NormalizedTypeIsNoneIff(position: nat, reference: string, alternate: string)
    requires IsAlleles(reference) && IsAlleles(alternate)
    ensures var v := Normalize(position, reference, alternate).value;
      VariantTypeOf(v.reference, v.alternate) == None <==> reference == alternate
  {
    var v := Normalize(position, reference, alternate).value;
    if reference == alternate {
      NormalizeIdentical(position, reference);
    } else if v.reference == v.alternate {
      EqualNormalFormMeansEqualAlleles(position, reference, alternate, v);
    }
  }

  /** A normal form is a pair of identical alleles only when the inputs are. */
  lemma EqualNormalFormMeansEqualAlleles(position: nat, reference: string, alternate: string, v: Variant)
    requires IsNormalizationOf(v, position, reference, alternate)
    requires v.reference == v.alternate
    ensures reference == alternate
  {
    var k := v.position - position;
    var e1, e2 := k + |v.reference|, k + |v.alternate|;
    assert e1 == e2;
    assert reference == reference[..k] + v.reference + reference[e1..];
    assert alternate == alternate[..k] + v.alternate + alternate[e2..];
  }

  // ---------------------------------------------------------------------
  // variant_type
  // ---------------------------------------------------------------------

  /** Classifies an allele pair; the guards are tried in order and the first
      that holds decides. Total: any two strings, even empty ones, get an
      answer. */
  function VariantTypeOf(reference: string, alternate: string): (t: Option<VariantType>)
    ensures t == None <==> reference == alternate
    ensures t == Some(SNV) <==> |reference| == 1 && |alternate| == 1 && reference != alternate
    ensures t == Some(MNV) <==> |reference| == |alternate| != 1 && reference != alternate
    ensures t == Some(Insertion) <==>
      |reference| == 1 && |alternate| > 1 && reference[0] == alternate[0]
    ensures t == Some(Deletion) <==>
      |alternate| == 1 && |reference| > 1 && reference[0] == alternate[0]
    ensures t == Some(Indel) <==>
      |reference| != |alternate| &&
      !(|reference| == 1 && |alternate| > 1 && reference[0] == alternate[0]) &&
      !(|alternate| == 1 && |reference| > 1 && reference[0] == alternate[0])
  {
    if |reference| == 1 && |alternate| == 1 && alternate != reference then Some(SNV)
    else if |reference| == |alternate| && alternate != reference then Some(MNV)
    else if |reference| == 1 && |alternate| > 1 && reference[..1] == alternate[..1] then Some(Insertion)
    else if |alternate| == 1 && |reference| > 1 && reference[..1] == alternate[..1] then Some(Deletion)
    else if |reference| != |alternate| then Some(Indel)
    else None
  }
}
