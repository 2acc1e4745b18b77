/** The scenarios of the unit tests of src/record.rs, stated as lemmas. */
module RecordTests {
  import opened Errors
  import opened Lib
  import opened Record

  /** A single differing symbol is left alone and is an SNV. */
  lemma {:induction false} NormalizeSnv()
    ensures Normalize(1000, "A", "T") == Ok(Variant(1000, "A", "T"))
    ensures VariantTypeOf("A", "T") == Some(SNV)
  {
    NormalizeIsUnique(1000, "A", "T", Variant(1000, "A", "T"));
  }

  /** An anchored insertion is already normal. */
  lemma {:induction false} NormalizeInsertion()
    ensures Normalize(1000, "A", "AT") == Ok(Variant(1000, "A", "AT"))
    ensures VariantTypeOf("A", "AT") == Some(Insertion)
  {
    NormalizeIsUnique(1000, "A", "AT", Variant(1000, "A", "AT"));
  }

  /** An anchored deletion is already normal. */
  lemma {:induction false} NormalizeDeletion()
    ensures Normalize(1000, "AT", "A") == Ok(Variant(1000, "AT", "A"))
    ensures VariantTypeOf("AT", "A") == Some(Deletion)
  {
    NormalizeIsUnique(1000, "AT", "A", Variant(1000, "AT", "A"));
  }

  /** The alleles end differently, so nothing is trimmed from the end; their
      shared start "AT" is the whole reference, so only "A" is trimmed and "T"
      is kept as the anchor, moving the position by one. */
  lemma {:induction false} NormalizeShiftedInsertion()
    ensures Normalize(1000, "AT", "ATA") == Ok(Variant(1001, "T", "TA"))
    ensures VariantTypeOf("T", "TA") == Some(Insertion)
  {
    NormalizeIsUnique(1000, "AT", "ATA", Variant(1001, "T", "TA"));
  }

  /** Shared "CC" is trimmed from the end, then "A" from the start. */
  lemma {:induction false} NormalizeTrimsBothEnds()
    ensures Normalize(1000, "ATCC", "ATACC") == Ok(Variant(1001, "T", "TA"))
    ensures VariantTypeOf("T", "TA") == Some(Insertion)
  {
    NormalizeIsUnique(1000, "ATCC", "ATACC", Variant(1001, "T", "TA"));
  }

  /** Trimming "TCC" and "A" leaves a pair that is neither an anchored
      insertion nor an anchored deletion. */
  lemma {:induction false} NormalizeIndel()
    ensures Normalize(1000, "ACTCC", "AGTTCC") == Ok(Variant(1001, "C", "GT"))
    ensures VariantTypeOf("C", "GT") == Some(Indel)
  {
    NormalizeIsUnique(1000, "ACTCC", "AGTTCC", Variant(1001, "C", "GT"));
  }

  /** Identical single symbols stay as they are and have no type. */
  lemma {:induction false} NormalizeNoVariant()
    ensures Normalize(1000, "A", "A") == Ok(Variant(1000, "A", "A"))
    ensures VariantTypeOf("A", "A") == None
  {
    NormalizeIdentical(1000, "A");
    assert "A"[..1] == "A";
  }

  /** Each validation failure, and the order in which they are reported. */
  lemma NormalizeRejects()
    ensures Normalize(1000, "", "A") == Err(RefBasesEmptyError)
    ensures Normalize(1000, "A", "") == Err(AltBasesEmptyError)
    ensures Normalize(1000, ".", "A") == Err(RefBasesInvalidSymbolError("."))
    ensures Normalize(1000, "A", ".") == Err(AltBasesInvalidSymbolError("."))
    ensures Normalize(1000, "", ".") == Err(RefBasesEmptyError)
    ensures Normalize(1000, ".", "") == Err(AltBasesEmptyError)
    ensures Normalize(1000, "a", ".") == Err(RefBasesInvalidSymbolError("a"))
  {
    assert !('.' in AlleleSymbols);
    assert "a"[0] == 'a' && !('a' in AlleleSymbols);
  }
}
