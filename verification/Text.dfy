// Strings: trimming, decimal rendering, and the byte-wise order of TEXT columns.

module Text {

  predicate IsSpace(c: char) {
    || '\t' <= c <= '\r' || c == ' ' || c == '\U{85}' || c == '\U{A0}' || c == '\U{1680}'
    || '\U{2000}' <= c <= '\U{200A}' || c == '\U{2028}' || c == '\U{2029}'
    || c == '\U{202F}' || c == '\U{205F}' || c == '\U{3000}'
  }

  lemma SpaceChars(c: char)
    ensures IsSpace(c) <==> c in {
      '\t', '\n', '\U{0B}', '\U{0C}', '\r', ' ', '\U{85}', '\U{A0}', '\U{1680}', '\U{2000}', '\U{2001}', '\U{2002}',
      '\U{2003}', '\U{2004}', '\U{2005}', '\U{2006}', '\U{2007}', '\U{2008}', '\U{2009}', '\U{200A}', '\U{2028}',
      '\U{2029}', '\U{202F}', '\U{205F}', '\U{3000}'}
  {
  }

  function Trim(s: string): string {
    if s != "" && IsSpace(s[0]) then Trim(s[1..])
    else if s != "" && IsSpace(s[|s| - 1]) then Trim(s[..|s| - 1])
    else s
  }

  /** Trimming takes white space from both ends, all of it, and nothing else. */
  lemma {:induction false} TrimMeans(s: string) returns (i: nat, j: nat)
    ensures i <= j <= |s| && Trim(s) == s[i..j]
    ensures forall k :: 0 <= k < i || j <= k < |s| ==> IsSpace(s[k])
    ensures i < j ==> !IsSpace(s[i]) && !IsSpace(s[j - 1])
    decreases |s|
  {
    if s != "" && IsSpace(s[0]) {
      i, j := TrimMeans(s[1..]);
      i, j := i + 1, j + 1;
    } else if s != "" && IsSpace(s[|s| - 1]) {
      i, j := TrimMeans(s[..|s| - 1]);
    } else {
      i, j := 0, |s|;
    }
  }

  function Digit(n: nat): char
    requires n < 10
  {
    "0123456789"[n]
  }

  predicate IsDigit(c: char) { '0' <= c <= '9' }

  /** The number that a run of digits stands for. */
  function Value(s: string): nat {
    if s == "" then 0
    else
      var last := s[|s| - 1];
      10 * Value(s[..|s| - 1]) + (if IsDigit(last) then last as int - '0' as int else 0)
  }

  function Decimal(n: nat): (s: string)
    ensures s != ""
  {
    if n < 10 then [Digit(n)] else Decimal(n / 10) + [Digit(n % 10)]
  }

  function SignedDecimal(n: int): string { if n < 0 then "-" + Decimal(-n) else Decimal(n) }

  lemma DigitValue(n: nat)
    requires n < 10
    ensures IsDigit(Digit(n)) && Digit(n) as int - '0' as int == n
  {
  }

  lemma {:induction false} DecimalDigits(n: nat)
    ensures forall c :: c in Decimal(n) ==> IsDigit(c)
    ensures Value(Decimal(n)) == n
  {
    DigitValue(n % 10);
    if n < 10 {
      assert Decimal(n)[..0] == "" && n % 10 == n;
    } else {
      DecimalDigits(n / 10);
      assert Decimal(n)[..|Decimal(n)| - 1] == Decimal(n / 10);
    }
  }

  /** ASCII letters in lower case, as SQLite compares column names. */
  function Fold(s: string): string {
    if s == "" then "" else [if 'A' <= s[0] <= 'Z' then s[0] - 'A' + 'a' else s[0]] + Fold(s[1..])
  }

  lemma {:induction false} FoldMeans(s: string)
    ensures |Fold(s)| == |s|
    ensures forall i :: 0 <= i < |s| ==> Fold(s)[i] as int == s[i] as int + if 'A' <= s[i] <= 'Z' then 32 else 0
  {
    if s != "" { FoldMeans(s[1..]); }
  }

  /** Strict lexicographic order by code point, which is the BINARY collation. */
  predicate Less(a: string, b: string) {
    b != "" && (a == "" || a[0] < b[0] || (a[0] == b[0] && Less(a[1..], b[1..])))
  }

  lemma {:induction false} LessIsStrictOrder(a: string, b: string, c: string)
    ensures !Less(a, a)
    ensures Less(a, b) || Less(b, a) || a == b
    ensures Less(a, b) && Less(b, c) ==> Less(a, c)
    ensures !(Less(a, b) && Less(b, a))
    decreases |a| + |b| + |c|
  {
    if a != "" {
      assert a == [a[0]] + a[1..];
      LessIsStrictOrder(a[1..], if b == "" then b else b[1..], if c == "" then c else c[1..]);
    }
    if b != "" { assert b == [b[0]] + b[1..]; }
  }

  /** Alike before position k, where the first string ends or has the smaller code point. */
  predicate PartsAt(a: string, b: string, k: nat) {
    k <= |a| && k < |b| && a[..k] == b[..k] && (k == |a| || a[k] < b[k])
  }

  lemma PartsAfterHead(a: string, b: string, k: nat)
    requires PartsAt(a, b, k) && k > 0
    ensures a[0] == b[0] && PartsAt(a[1..], b[1..], k - 1)
  {
    assert a[0] == a[..k][0] && b[0] == b[..k][0];
    assert a[1..][..k - 1] == a[..k][1..] && b[1..][..k - 1] == b[..k][1..];
  }

  lemma PartsWithHead(a: string, b: string, k: nat)
    requires a != "" && b != "" && a[0] == b[0] && PartsAt(a[1..], b[1..], k)
    ensures PartsAt(a, b, k + 1)
  {
    assert a[..k + 1] == [a[0]] + a[1..][..k] && b[..k + 1] == [b[0]] + b[1..][..k];
  }

  lemma {:induction false} LessMeans(a: string, b: string)
    ensures Less(a, b) <==> exists k :: PartsAt(a, b, k)
    decreases |a|
  {
    if k :| PartsAt(a, b, k) && k > 0 {
      PartsAfterHead(a, b, k);
      LessMeans(a[1..], b[1..]);
    } else if Less(a, b) {
      if a != "" && a[0] == b[0] {
        LessMeans(a[1..], b[1..]);
        var k :| PartsAt(a[1..], b[1..], k);
        PartsWithHead(a, b, k);
      } else {
        assert PartsAt(a, b, 0);
      }
    }
  }
}
