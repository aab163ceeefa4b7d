/** Workflow-run and unit identifiers: the safe-identifier pattern, zero-padded unit numbers, and
    "run/unit" batch keys. */
module Identifiers {
  import opened Text

  predicate IsAlnum(c: char) {
    'A' <= c <= 'Z' || 'a' <= c <= 'z' || '0' <= c <= '9'
  }

  /** The pattern  [A-Za-z0-9][A-Za-z0-9._-]{0,127}  matched against the whole text. */
  predicate IsIdentifier(s: string) {
    && 1 <= |s| <= 128
    && IsAlnum(s[0])
    && forall i :: 0 <= i < |s| ==> IsAlnum(s[i]) || s[i] in "._-"
  }

  /** A safe identifier begins with a letter or digit and goes on with letters, digits, dots, underscores and hyphens,
      up to 128 characters in all. */
  lemma IdentifierGrows(s: string, c: char)
    ensures !IsIdentifier("")
    ensures IsIdentifier([c]) <==> 'A' <= c <= 'Z' || 'a' <= c <= 'z' || '0' <= c <= '9'
    ensures s != "" ==> (IsIdentifier(s + [c]) <==>
      && IsIdentifier(s) && |s| < 128
      && ('A' <= c <= 'Z' || 'a' <= c <= 'z' || '0' <= c <= '9' || c == '.' || c == '_' || c == '-'))
  {
    if s != "" {
      var t := s + [c];
      assert t[|s|] == c && forall i :: 0 <= i < |s| ==> t[i] == s[i];
    }
  }

  function BatchKey(run: string, unitId: string): string {
    run + "/" + unitId
  }

  /** A key built from two identifiers splits back into them. */
  lemma SplitBatchKey(run: string, unitId: string)
    requires IsIdentifier(run) && IsIdentifier(unitId)
    ensures Split(BatchKey(run, unitId), '/') == [run, unitId]
  {
    SplitAfterSeparator(run, unitId, '/');
    SplitNoSeparator(unitId, '/');
  }

  lemma BatchKeyInjective(run1: string, unit1: string, run2: string, unit2: string)
    requires IsIdentifier(run1) && IsIdentifier(unit1) && IsIdentifier(run2) && IsIdentifier(unit2)
    requires BatchKey(run1, unit1) == BatchKey(run2, unit2)
    ensures run1 == run2 && unit1 == unit2
  {
    SplitBatchKey(run1, unit1);
    SplitBatchKey(run2, unit2);
  }

  // ---- decimal numbers, padded to four digits ----

  function Digit(d: nat): char
    requires d < 10
  {
    "0123456789"[d]
  }

  function Decimal(n: nat): string {
    if n < 10 then [Digit(n)] else Decimal(n / 10) + [Digit(n % 10)]
  }

  function Zeros(k: nat): string {
    if k == 0 then "" else "0" + Zeros(k - 1)
  }

  function Pad4(n: nat): string {
    var s := Decimal(n);
    if |s| < 4 then Zeros(4 - |s|) + s else s
  }

  /** The number a digit string stands for. */
  ghost function NumberOf(s: string): nat {
    if s == "" then 0
    else 10 * NumberOf(s[..|s| - 1]) + (if '0' <= s[|s| - 1] <= '9' then s[|s| - 1] as nat - '0' as nat else 0)
  }

  lemma {:induction false} NumberOfDecimal(n: nat)
    ensures NumberOf(Decimal(n)) == n
    ensures forall i :: 0 <= i < |Decimal(n)| ==> '0' <= Decimal(n)[i] <= '9'
  {
    if n >= 10 {
      NumberOfDecimal(n / 10);
      assert Decimal(n)[..|Decimal(n)| - 1] == Decimal(n / 10);
    } else {
      assert Decimal(n)[..0] == "";
    }
  }

  lemma {:induction false} NumberOfZeros(k: nat)
    ensures NumberOf(Zeros(k)) == 0
  {
    if k > 0 {
      ZerosSnoc(k - 1);
      assert Zeros(k)[..k - 1] == Zeros(k - 1);
      NumberOfZeros(k - 1);
    }
  }

  lemma {:induction false} NumberOfPadded(k: nat, s: string)
    ensures NumberOf(Zeros(k) + s) == NumberOf(s)
    decreases |s|
  {
    if s == "" {
      NumberOfZeros(k);
      assert Zeros(k) + s == Zeros(k);
    } else {
      hide Zeros;
      var t := s[..|s| - 1];
      NumberOfPadded(k, t);
      assert (Zeros(k) + s)[..|Zeros(k) + s| - 1] == Zeros(k) + t;
    }
  }

  lemma {:induction false} ZerosSnoc(k: nat)
    ensures |Zeros(k + 1)| == k + 1 && |Zeros(k)| == k && Zeros(k + 1) == Zeros(k) + "0"
  {
    if k > 0 { ZerosSnoc(k - 1); }
  }

  lemma PadInjective(m: nat, n: nat)
    requires Pad4(m) == Pad4(n)
    ensures m == n
  {
    NumberOfDecimal(m);
    NumberOfDecimal(n);
    NumberOfPadded(if |Decimal(m)| < 4 then 4 - |Decimal(m)| else 0, Decimal(m));
    NumberOfPadded(if |Decimal(n)| < 4 then 4 - |Decimal(n)| else 0, Decimal(n));
  }

  function Pow10(k: nat): nat {
    if k == 0 then 1 else 10 * Pow10(k - 1)
  }

  lemma {:induction false} DecimalLength(n: nat, k: nat)
    requires k > 0 && n < Pow10(k)
    ensures |Decimal(n)| <= k
    decreases k
  {
    if n >= 10 { DecimalLength(n / 10, k - 1); }
  }

  // ---- unit ids ----

  /** Twelve lower-case hexadecimal digits. */
  predicate IsDigest(s: string) {
    |s| == 12 && forall i :: 0 <= i < |s| ==> '0' <= s[i] <= '9' || 'a' <= s[i] <= 'f'
  }

  function UnitId(index: nat, digest: string): string {
    "unit-" + Pad4(index) + "-" + digest
  }

  lemma UnitIdInjective(i: nat, j: nat, d1: string, d2: string)
    requires IsDigest(d1) && IsDigest(d2) && UnitId(i, d1) == UnitId(j, d2)
    ensures i == j
  {
    hide Pad4;
    var u, v := UnitId(i, d1), UnitId(j, d2);
    assert u[5..|u| - 13] == Pad4(i) && v[5..|v| - 13] == Pad4(j);
    PadInjective(i, j);
  }

  lemma {:induction false} DecimalHead(n: nat)
    ensures Decimal(n) != "" && (Decimal(n)[0] == '0' ==> |Decimal(n)| == 1)
  {
    if n >= 10 { DecimalHead(n / 10); }
  }

  /** The digits of a unit's number: at least four, no leading zero beyond that, and worth the number. */
  ghost predicate IsPadded(s: string, n: nat) {
    && |s| >= 4 && (|s| > 4 ==> s[0] != '0')
    && (forall i :: 0 <= i < |s| ==> '0' <= s[i] <= '9') && NumberOf(s) == n
  }

  lemma PadIs(n: nat)
    ensures IsPadded(Pad4(n), n)
  {
    NumberOfDecimal(n);
    DecimalHead(n);
    var s := Decimal(n);
    hide Decimal, NumberOf, Zeros;
    if |s| < 4 {
      ZerosAre(4 - |s|);
      NumberOfPadded(4 - |s|, s);
    }
  }

  /** The unit id spells out, in this order: a fixed word, the padded number, and the digest. */
  lemma UnitIdReads(index: nat, digest: string)
    ensures exists number :: IsPadded(number, index) && UnitId(index, digest) == "unit-" + number + "-" + digest
  {
    PadIs(index);
  }

  /** SQLite row ids are 64-bit integers, so a table holds fewer rows than this. */
  const ROW_LIMIT: nat := 0x8000_0000_0000_0000

  lemma Pow10Values()
    ensures Pow10(19) == 10000000000000000000
  {
    assert Pow10(4) == 10000;
    assert Pow10(8) == 100000000;
    assert Pow10(12) == 1000000000000;
    assert Pow10(16) == 10000000000000000;
  }

  lemma PaddedNumber(index: nat)
    requires index <= ROW_LIMIT
    ensures 4 <= |Pad4(index)| <= 19
    ensures forall i :: 0 <= i < |Pad4(index)| ==> IsAlnum(Pad4(index)[i])
  {
    DecimalFits(index);
    NumberOfDecimal(index);
    hide Decimal, NumberOf, Zeros;
    var s := Decimal(index);
    if |s| < 4 { ZerosAre(4 - |s|); }
  }

  lemma DecimalFits(n: nat)
    requires n <= ROW_LIMIT
    ensures |Decimal(n)| <= 19
  {
    Pow10Values();
    hide Pow10, Decimal;
    DecimalLength(n, 19);
  }

  lemma UnitIdIsIdentifier(index: nat, digest: string)
    requires index <= ROW_LIMIT && IsDigest(digest)
    ensures IsIdentifier(UnitId(index, digest))
  {
    PaddedNumber(index);
    hide Pad4;
    var s := UnitId(index, digest);
    forall i | 0 <= i < |s| ensures IsAlnum(s[i]) || s[i] in "._-" {
      var n := |Pad4(index)|;
      if 5 <= i < 5 + n { assert s[i] == Pad4(index)[i - 5]; }
      if 6 + n <= i { assert s[i] == digest[i - 6 - n]; }
    }
  }

  lemma {:induction false} ZerosAre(k: nat)
    ensures |Zeros(k)| == k && forall i :: 0 <= i < k ==> Zeros(k)[i] == '0'
  {
    if k > 0 { ZerosAre(k - 1); }
  }
}
