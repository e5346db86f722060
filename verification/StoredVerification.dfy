/** The verification an account record carries, and how `init` cleans the one it finds in the
    file: texts trimmed and then cut, capabilities without blanks and repetitions.

    A null text is the empty text. `at` is a time, absent when it cannot be read as one. `plain`
    says that the stored JSON spells what it holds as a clean one would: the time in ISO form,
    absent texts as null, and no further keys. */
module StoredVerification {
  import opened JsText
  import opened Wrappers

  datatype Verification =
    | NoVerification
    | Verification(succeeded: bool, at: Option<int>, adapterId: string, capabilities: seq<string>, failureCode: string, plain: bool)

  const MAX_TEXT := 100
  const MAX_CAPABILITY := 80
  const MAX_CAPABILITIES := 24
  const UNAVAILABLE := "adapter_unavailable"

  /** `trim().slice(0, n)`: what is cut off may leave a space at the end. */
  function Cut(s: string, n: nat): string {
    Take(Trim(s), n)
  }

  function Cuts(items: seq<string>, n: nat): seq<string> {
    if items == [] then []
    else (if Cut(items[0], n) == "" then [] else [Cut(items[0], n)]) + Cuts(items[1..], n)
  }

  /** `[...new Set(items)]` */
  function Unique(items: seq<string>): seq<string> {
    if items == [] then []
    else
      var last, before := items[|items| - 1], Unique(items[..|items| - 1]);
      if last in before then before else before + [last]
  }

  /** `normalizeSafeList` */
  function SafeList(items: seq<string>): seq<string> {
    Take(Unique(Cuts(items, MAX_CAPABILITY)), MAX_CAPABILITIES)
  }

  /** `normalizeStoredVerification` */
  function CleanVerification(v: Verification): Verification {
    if v.NoVerification? || v.at.None? then NoVerification
    else Verification(v.succeeded, v.at, Cut(v.adapterId, MAX_TEXT), SafeList(v.capabilities),
                      if v.succeeded then "" else Cut(if v.failureCode == "" then UNAVAILABLE else v.failureCode, MAX_TEXT),
                      true)
  }

  ghost predicate Distinct(items: seq<string>) {
    forall i, j | 0 <= i < j < |items| :: items[i] != items[j]
  }

  lemma {:induction false} UniqueLaw(items: seq<string>)
    ensures Distinct(Unique(items)) && forall x | x in Unique(items) :: x in items
    ensures Distinct(items) ==> Unique(items) == items
  {
    if items != [] {
      var last, before := items[|items| - 1], items[..|items| - 1];
      UniqueLaw(before);
      assert items == before + [last];
      if Distinct(items) {
        assert last !in before;
      }
    }
  }

  /** A text that can come out of `Cut`. */
  ghost predicate IsCut(s: string, n: nat) {
    |s| <= n && (s != "" ==> !IsSpace(s[0]))
  }

  lemma CutLaw(s: string, n: nat)
    ensures IsCut(Cut(s, n), n)
    ensures n > 0 ==> (Cut(s, n) == "" <==> Trim(s) == "")
  {
    TrimTrims(s);
  }

  /** Cutting again only removes white space from the end, and then there is none left. */
  lemma CutAgain(s: string, n: nat)
    requires IsCut(s, n)
    ensures Cut(s, n) == Trim(s) && Trimmed(Cut(s, n)) && IsCut(Cut(s, n), n)
    ensures s != "" ==> Cut(s, n) != ""
    ensures Cut(s, n) == s <==> Trimmed(s)
  {
    TrimTrims(s);
    TrimmedIff(s);
    TrimRightEnds(s);
    if s != "" {
      FirstStays(s);
    }
  }

  lemma {:induction false} FirstStays(s: string)
    requires s != "" && !IsSpace(s[0])
    ensures TrimRight(s) != "" && TrimRight(s)[0] == s[0]
  {
    if IsSpace(s[|s| - 1]) {
      FirstStays(s[..|s| - 1]);
    }
  }

  lemma {:induction false} CutsLaw(items: seq<string>, n: nat)
    ensures forall x | x in Cuts(items, n) :: x != "" && IsCut(x, n)
    ensures (forall x | x in items :: IsCut(x, n)) ==> forall x | x in Cuts(items, n) :: Trimmed(x)
    ensures (forall x | x in items :: x != "" && IsCut(x, n) && Trimmed(x)) ==> Cuts(items, n) == items
  {
    if items != [] {
      CutsLaw(items[1..], n);
      CutLaw(items[0], n);
      if IsCut(items[0], n) {
        CutAgain(items[0], n);
      }
      if forall x | x in items :: x != "" && IsCut(x, n) && Trimmed(x) {
        assert items[0] in items;
        assert Cut(items[0], n) == items[0];
      }
      assert items == [items[0]] + items[1..];
      assert forall x | x in items[1..] :: x in items;
    }
  }

  /** A list that can come out of `SafeList`. */
  ghost predicate IsSafeList(items: seq<string>) {
    Distinct(items) && |items| <= MAX_CAPABILITIES && forall x | x in items :: x != "" && IsCut(x, MAX_CAPABILITY)
  }

  lemma SafeListLaw(items: seq<string>)
    ensures IsSafeList(SafeList(items))
    ensures IsSafeList(items) ==> forall x | x in SafeList(items) :: Trimmed(x)
  {
    CutsLaw(items, MAX_CAPABILITY);
    UniqueLaw(Cuts(items, MAX_CAPABILITY));
  }

  lemma {:induction false} UniqueHas(items: seq<string>, x: string)
    requires x in items
    ensures x in Unique(items)
  {
    var last, before := items[|items| - 1], items[..|items| - 1];
    assert items == before + [last];
    if x != last {
      UniqueHas(before, x);
    }
  }

  lemma {:induction false} CutsHas(items: seq<string>, n: nat, y: string)
    requires y in items && Cut(y, n) != ""
    ensures Cut(y, n) in Cuts(items, n)
  {
    if y != items[0] {
      assert y in items[1..];
      CutsHas(items[1..], n, y);
    }
  }

  /** Every capability that is not blank is kept, cut, unless there are twenty-four others. */
  lemma SafeListCovers(items: seq<string>, y: string)
    requires y in items && Trim(y) != ""
    ensures Take(Trim(y), 80) in SafeList(items) || |SafeList(items)| == 24
  {
    CutsHas(items, MAX_CAPABILITY, y);
    UniqueHas(Cuts(items, MAX_CAPABILITY), Cut(y, MAX_CAPABILITY));
  }

  lemma SafeListStableIff(items: seq<string>)
    requires IsSafeList(items)
    ensures SafeList(items) == items <==> forall x | x in items :: Trimmed(x)
  {
    SafeListLaw(items);
    CutsLaw(items, MAX_CAPABILITY);
    UniqueLaw(items);
  }

  /** The cut, if there is one, does not come just after white space. */
  predicate CutsWell(s: string, n: nat)
    requires n > 0
  {
    |Trim(s)| <= n || !IsSpace(Trim(s)[n - 1])
  }

  lemma CutsWellIff(s: string, n: nat)
    requires n > 0
    ensures Trimmed(Cut(s, n)) <==> CutsWell(s, n)
  {
    TrimTrims(s);
  }

  lemma {:induction false} CutsSource(items: seq<string>, n: nat)
    ensures forall x | x in Cuts(items, n) :: exists y :: y in items && x == Cut(y, n)
  {
    if items != [] {
      CutsSource(items[1..], n);
      assert items[0] in items && forall y | y in items[1..] :: y in items;
    }
  }

  /** Of a stored verification: no text it keeps is cut just after white space, and a failure's
      code is not all white space. */
  ghost predicate WellStored(v: Verification) {
    v.NoVerification? || v.at.None? ||
    (&& CutsWell(v.adapterId, MAX_TEXT)
     && (forall y | y in v.capabilities && Cut(y, MAX_CAPABILITY) in SafeList(v.capabilities) :: CutsWell(y, MAX_CAPABILITY))
     && (v.succeeded || v.failureCode == "" || (Trim(v.failureCode) != "" && CutsWell(v.failureCode, MAX_TEXT))))
  }

  /** No text ends in white space, and a failure has a code. */
  ghost predicate Settled(v: Verification) {
    v.NoVerification? ||
    (&& Trimmed(v.adapterId)
     && (forall x | x in v.capabilities :: Trimmed(x))
     && (v.succeeded || (v.failureCode != "" && Trimmed(v.failureCode))))
  }

  lemma SafeListWellIff(items: seq<string>)
    ensures (forall x | x in SafeList(items) :: Trimmed(x)) <==>
              forall y | y in items && Cut(y, MAX_CAPABILITY) in SafeList(items) :: CutsWell(y, MAX_CAPABILITY)
  {
    UniqueLaw(Cuts(items, MAX_CAPABILITY));
    CutsSource(items, MAX_CAPABILITY);
    forall y | y in items ensures Trimmed(Cut(y, MAX_CAPABILITY)) <==> CutsWell(y, MAX_CAPABILITY) {
      CutsWellIff(y, MAX_CAPABILITY);
    }
    forall x | x in SafeList(items) ensures exists y :: y in items && x == Cut(y, MAX_CAPABILITY) {
      assert x in Cuts(items, MAX_CAPABILITY);
    }
  }

  lemma WellStoredIff(v: Verification)
    ensures WellStored(v) <==> Settled(CleanVerification(v))
  {
    if v.Verification? && v.at.Some? {
      var code := if v.failureCode == "" then UNAVAILABLE else v.failureCode;
      CutsWellIff(v.adapterId, MAX_TEXT);
      CutsWellIff(code, MAX_TEXT);
      CutLaw(code, MAX_TEXT);
      UnavailableIsCut();
      SafeListWellIff(v.capabilities);
    }
  }

  /** Cleaning again changes nothing exactly when the first cleaning cuts no text off just after
      white space and finds no failure code that is all white space. */
  lemma CleanedTwiceIff(v: Verification)
    ensures CleanVerification(CleanVerification(v)) == CleanVerification(v) <==> WellStored(v)
  {
    WellStoredIff(v);
    SettledIff(v);
  }

  lemma SettledIff(v: Verification)
    ensures CleanVerification(CleanVerification(v)) == CleanVerification(v) <==> Settled(CleanVerification(v))
  {
    var once := CleanVerification(v);
    if once.Verification? {
      CutLaw(v.adapterId, MAX_TEXT);
      CutAgain(once.adapterId, MAX_TEXT);
      SafeListLaw(v.capabilities);
      SafeListStableIff(once.capabilities);
      if !v.succeeded {
        CutLaw(if v.failureCode == "" then UNAVAILABLE else v.failureCode, MAX_TEXT);
        CutAgain(once.failureCode, MAX_TEXT);
        UnavailableIsCut();
      }
    }
  }

  lemma UnavailableIsCut()
    ensures Cut(UNAVAILABLE, MAX_TEXT) == UNAVAILABLE && Trimmed(UNAVAILABLE)
  {
    TrimmedIff(UNAVAILABLE);
  }

  /** The second cleaning settles everything: a third never changes anything. */
  lemma CleanedThrice(v: Verification)
    ensures var twice := CleanVerification(CleanVerification(v)); CleanVerification(twice) == twice
  {
    var once := CleanVerification(v);
    SettledIff(once);
    if once.Verification? {
      CutLaw(v.adapterId, MAX_TEXT);
      CutAgain(once.adapterId, MAX_TEXT);
      SafeListLaw(v.capabilities);
      SafeListLaw(once.capabilities);
      if !v.succeeded {
        CutLaw(if v.failureCode == "" then UNAVAILABLE else v.failureCode, MAX_TEXT);
        CutAgain(once.failureCode, MAX_TEXT);
        UnavailableIsCut();
      }
    }
  }

  /** Ninety-nine letters, a space and one more letter: the cut leaves the space for the next
      cleaning to remove. */
  lemma CleaningIsNotIdempotent()
    ensures var v := Verification(true, Some(0), seq(99, _ => 'a') + " b", [], "", true);
            CleanVerification(CleanVerification(v)) != CleanVerification(v)
  {
    var text := seq(99, _ => 'a') + " b";
    var v := Verification(true, Some(0), text, [], "", true);
    assert text[0] == 'a' && text[100] == 'b' && text[99] == ' ';
    TrimmedIff(text);
    assert Cut(text, MAX_TEXT) == text[..100];
    assert text[..100][99] == ' ';
    SettledIff(v);
  }

  /** The form of a clean text and of a clean verification. */
  predicate CleanText(s: string, n: nat) {
    Trimmed(s) && |s| <= n
  }

  predicate WellFormed(v: Verification) {
    v.NoVerification? ||
    (&& v.plain && v.at.Some? && CleanText(v.adapterId, 100)
     && |v.capabilities| <= 24
     && (forall i | 0 <= i < |v.capabilities| :: v.capabilities[i] != "" && CleanText(v.capabilities[i], 80))
     && (forall i, j | 0 <= i < j < |v.capabilities| :: v.capabilities[i] != v.capabilities[j])
     && if v.succeeded then v.failureCode == "" else v.failureCode != "" && CleanText(v.failureCode, 100))
  }

  lemma CutFixedIff(s: string, n: nat)
    ensures Cut(s, n) == s <==> CleanText(s, n)
  {
    TrimTrims(s);
    TrimmedIff(s);
    TrimShorter(s);
  }

  lemma SafeListFixedIff(items: seq<string>)
    ensures SafeList(items) == items <==>
              && |items| <= 24
              && (forall i | 0 <= i < |items| :: items[i] != "" && CleanText(items[i], 80))
              && (forall i, j | 0 <= i < j < |items| :: items[i] != items[j])
  {
    SafeListLaw(items);
    if SafeList(items) == items {
      forall i | 0 <= i < |items| ensures items[i] != "" && CleanText(items[i], 80) {
        assert items[i] in items;
      }
    }
    if IsSafeList(items) {
      SafeListStableIff(items);
      forall x | x in items ensures Trimmed(x) <==> CleanText(x, 80) {
      }
    }
  }

  /** Cleaning leaves a verification as it is exactly when it is well formed, and drops it exactly
      when it has no time; it never changes the time or whether it succeeded, and gives a code to
      every failure that has none. */
  lemma CleanIff(v: Verification)
    ensures CleanVerification(v) == v <==> WellFormed(v)
    ensures CleanVerification(v).NoVerification? <==> v.NoVerification? || v.at.None?
    ensures CleanVerification(v).Verification? ==>
              && CleanVerification(v).at == v.at && CleanVerification(v).succeeded == v.succeeded
              && (v.succeeded ==> CleanVerification(v).failureCode == "")
              && (!v.succeeded && v.failureCode == "" ==> CleanVerification(v).failureCode == "adapter_unavailable")
  {
    UnavailableIsCut();
    if v.Verification? {
      CutFixedIff(v.adapterId, MAX_TEXT);
      CutFixedIff(v.failureCode, MAX_TEXT);
      SafeListFixedIff(v.capabilities);
    }
  }
}
