/** The string operations the handlers rely on: `str()`/`int()` of
    non-negative integers, `str.endswith`, and the POSIX flavour of
    `os.path.join` and `os.path.split` (the directory part only). */
module Text {
  import opened Base

  const Sep: char := '/'

  predicate IsDigit(c: char) {
    '0' <= c <= '9'
  }

  predicate AllDigits(s: string) {
    forall i :: 0 <= i < |s| ==> IsDigit(s[i])
  }

  predicate ContainsSep(s: string) {
    exists i :: 0 <= i < |s| && s[i] == Sep
  }

  function DigitChar(d: nat): (c: char)
    requires d < 10
    ensures IsDigit(c) && c as int - '0' as int == d
  {
    ('0' as int + d) as char
  }

  /** `str(n)` for n >= 0: decimal digits, most significant first, no leading zero. */
  function Decimal(n: nat): (s: string)
    ensures |s| > 0 && AllDigits(s)
    ensures |s| > 1 ==> s[0] != '0'
    decreases n
  {
    if n < 10 then [DigitChar(n)] else Decimal(n / 10) + [DigitChar(n % 10)]
  }

  /** `int(s)` for a string of decimal digits. */
  function ParseDecimal(s: string): nat
    requires AllDigits(s)
  {
    if |s| == 0 then 0
    else ParseDecimal(s[..|s| - 1]) * 10 + (s[|s| - 1] as int - '0' as int)
  }

  /** `int(str(n)) == n`. */
  lemma {:induction false} ParseDecimalInverts(n: nat)
    ensures ParseDecimal(Decimal(n)) == n
  {
    if n >= 10 {
      var s := Decimal(n);
      assert s[..|s| - 1] == Decimal(n / 10);
      ParseDecimalInverts(n / 10);
    }
  }

  /** Distinct numbers print differently. */
  lemma DecimalInjective(a: nat, b: nat)
    ensures Decimal(a) == Decimal(b) <==> a == b
  {
    ParseDecimalInverts(a);
    ParseDecimalInverts(b);
  }

  /** `s.endswith(suffix)`. */
  predicate EndsWith(s: string, suffix: string) {
    |suffix| <= |s| && s[|s| - |suffix|..] == suffix
  }

  /** The save handler's file-name rule: append ".csv" unless already there. */
  function WithCsv(name: string): (r: string)
    ensures EndsWith(r, ".csv")
    ensures |name| <= |r| && r[..|name|] == name
    ensures EndsWith(name, ".csv") <==> r == name
    ensures !EndsWith(name, ".csv") ==> |r| == |name| + 4
  {
    if EndsWith(name, ".csv") then name else name + ".csv"
  }

  /** Appending the suffix twice is the same as appending it once. */
  lemma WithCsvIdempotent(name: string)
    ensures WithCsv(WithCsv(name)) == WithCsv(name)
  {
  }

  /** `os.path.join(a, b)` (posixpath) for two components. */
  function JoinPath(a: string, b: string): (r: string)
    ensures EndsWith(r, b)
    ensures |b| > 0 && b[0] == Sep ==> r == b
    ensures !(|b| > 0 && b[0] == Sep) && |a| > 0 && a[|a| - 1] != Sep ==> r == a + [Sep] + b
    ensures !(|b| > 0 && b[0] == Sep) && (|a| == 0 || a[|a| - 1] == Sep) ==> r == a + b
  {
    if |b| > 0 && b[0] == Sep then b
    else if |a| == 0 || a[|a| - 1] == Sep then a + b
    else a + [Sep] + b
  }

  /** Index of the last separator, as `p.rfind('/')`. */
  function LastSep(p: string): (r: Option<nat>)
    ensures r.None? <==> !ContainsSep(p)
    ensures r.Some? ==> r.value < |p| && p[r.value] == Sep
    ensures r.Some? ==> forall j :: r.value < j < |p| ==> p[j] != Sep
  {
    if |p| == 0 then None
    else if p[|p| - 1] == Sep then Some(|p| - 1)
    else
      var r := LastSep(p[..|p| - 1]);
      assert ContainsSep(p) ==> ContainsSep(p[..|p| - 1]) by {
        if ContainsSep(p) {
          var i :| 0 <= i < |p| && p[i] == Sep;
          assert p[..|p| - 1][i] == Sep;
        }
      }
      r
  }

  predicate AllSep(s: string) {
    forall i :: 0 <= i < |s| ==> s[i] == Sep
  }

  /** `s.rstrip('/')`. */
  function RStripSep(s: string): (r: string)
    ensures |r| <= |s| && r == s[..|r|]
    ensures |r| > 0 ==> r[|r| - 1] != Sep
    ensures forall j :: |r| <= j < |s| ==> s[j] == Sep
  {
    if |s| > 0 && s[|s| - 1] == Sep then RStripSep(s[..|s| - 1]) else s
  }

  /** The head of `os.path.split(p)`: everything up to the last separator, with
      trailing separators removed unless the head consists of separators only. */
  function SplitHead(p: string): string {
    var head := match LastSep(p) case None => "" case Some(i) => p[..i + 1];
    if |head| > 0 && !AllSep(head) then RStripSep(head) else head
  }

  /** The head is a prefix of the path, and it is empty exactly when the path has
      no separator (a bare file name keeps the previous save directory). */
  lemma SplitHeadShape(p: string)
    ensures |SplitHead(p)| <= |p| && SplitHead(p) == p[..|SplitHead(p)|]
    ensures SplitHead(p) != "" <==> ContainsSep(p)
  {
    match LastSep(p)
    case None =>
    case Some(i) =>
      var head := p[..i + 1];
      if !AllSep(head) {
        var k :| 0 <= k < |head| && head[k] != Sep;
        var r := RStripSep(head);
        assert |r| > k;
      }
  }

  /** Joining a directory and a bare file name, then taking the head of the
      result, gives the directory back: the file dialog's answer moves the
      save directory to the directory the file was chosen in. */
  lemma {:induction false} SplitJoined(d: string, n: string)
    requires |d| > 0 && d[|d| - 1] != Sep
    requires |n| > 0 && !ContainsSep(n)
    ensures SplitHead(JoinPath(d, n)) == d
  {
    var p := JoinPath(d, n);
    assert p == d + [Sep] + n;
    assert p[|d|] == Sep;
    assert forall j :: |d| < j < |p| ==> p[j] == n[j - |d| - 1];
    assert LastSep(p) == Some(|d|);
    var head := p[..|d| + 1];
    assert head == d + [Sep];
    assert head[|d| - 1] == d[|d| - 1];
    assert !AllSep(head);
    assert RStripSep(head) == RStripSep(d);
    assert RStripSep(d) == d;
  }
}
