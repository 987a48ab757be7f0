/**
 The printed key of a path (decimal node numbers separated by commas) and why comparing
 keys is the same as comparing paths.
 */
module PathKeys {

  type Path = seq<int>

  // ---------- decimal printing ----------

  function DigitChar(d: nat): (c: char)
    requires d < 10
    ensures IsDigit(c) && DigitValue(c) == d
  {
    ('0' as int + d) as char
  }

  predicate IsDigit(c: char) {
    '0' <= c <= '9'
  }

  function DigitValue(c: char): nat
    requires IsDigit(c)
  {
    c as int - '0' as int
  }

  predicate AllDigits(s: string) {
    forall i :: 0 <= i < |s| ==> IsDigit(s[i])
  }

  function PrintNat(n: nat): (s: string)
    ensures |s| > 0 && AllDigits(s)
  {
    if n < 10 then [DigitChar(n)] else PrintNat(n / 10) + [DigitChar(n % 10)]
  }

  /** Decimal form of a signed number, as std::to_string prints it. */
  function PrintInt(n: int): (s: string)
    ensures |s| > 0 && ',' !in s
  {
    if n < 0 then "-" + PrintNat(-n) else PrintNat(n)
  }

  function ParseNat(s: string): nat
    requires AllDigits(s)
  {
    if s == [] then 0 else ParseNat(s[..|s| - 1]) * 10 + DigitValue(s[|s| - 1])
  }

  lemma {:induction false} ParsePrintNat(n: nat)
    ensures ParseNat(PrintNat(n)) == n
  {
    if n >= 10 {
      ParsePrintNat(n / 10);
      assert PrintNat(n)[..|PrintNat(n)| - 1] == PrintNat(n / 10);
    }
  }

  /** The number a decimal text stands for; anything else reads as zero. */
  function ReadInt(s: string): int {
    if s != "" && s[0] == '-' && AllDigits(s[1..]) then 0 - ParseNat(s[1..])
    else if AllDigits(s) then ParseNat(s)
    else 0
  }

  lemma ReadPrinted(n: int)
    ensures ReadInt(PrintInt(n)) == n
  {
    ParsePrintNat(if n < 0 then -n else n);
    assert n < 0 ==> PrintInt(n)[1..] == PrintNat(-n);
    assert n >= 0 ==> IsDigit(PrintInt(n)[0]);
  }

  // ---------- keys ----------

  function PathKey(path: Path): string {
    if |path| == 0 then ""
    else if |path| == 1 then PrintInt(path[0])
    else PathKey(path[..|path| - 1]) + "," + PrintInt(path[|path| - 1])
  }

  method ComputePathKey(path: Path) returns (key: string)
    ensures key == PathKey(path)
  {
    key := "";
    for index := 0 to |path|
      invariant key == PathKey(path[..index])
    {
      if index > 0 {
        key := key + ",";
      }
      key := key + PrintInt(path[index]);
      assert path[..index + 1][..index] == path[..index];
    }
    assert path[..|path|] == path;
  }

  /** Position of the last comma, or -1. */
  function LastComma(s: string): (i: int)
    ensures -1 <= i < |s| && (i >= 0 ==> s[i] == ',')
    ensures forall k :: i < k < |s| ==> s[k] != ','
  {
    if s == "" then -1 else if s[|s| - 1] == ',' then |s| - 1 else LastComma(s[..|s| - 1])
  }

  /** Reads a key back: the numbers between its commas. */
  function ReadKey(key: string): Path
    decreases |key|
  {
    var i := LastComma(key);
    if key == "" then []
    else if i < 0 then [ReadInt(key)]
    else ReadKey(key[..i]) + [ReadInt(key[i + 1..])]
  }

  /** A key is the list of its nodes and of nothing else. */
  lemma {:induction false} ReadKeyOfPath(path: Path)
    ensures ReadKey(PathKey(path)) == path
  {
    var n := |path| - 1;
    if |path| == 1 {
      ReadPrinted(path[0]);
    } else if |path| > 1 {
      var front, last := PathKey(path[..n]), PrintInt(path[n]);
      SplitsAtLast(front, last);
      ReadKeyOfPath(path[..n]);
      ReadPrinted(path[n]);
      assert path == path[..n] + [path[n]];
    }
  }

  lemma SplitsAtLast(front: string, last: string)
    requires ',' !in last
    ensures var s := front + "," + last;
            LastComma(s) == |front| && s[..|front|] == front && s[|front| + 1..] == last
  {
    var s := front + "," + last;
    assert s[|front|] == ',';
    assert forall k :: |front| < k < |s| ==> s[k] == last[k - |front| - 1];
  }

  /** Different paths never share a key. */
  lemma PathKeyInjective(a: Path, b: Path)
    requires PathKey(a) == PathKey(b)
    ensures a == b
  {
    ReadKeyOfPath(a);
    ReadKeyOfPath(b);
  }

  /** Membership of a key in a set of keys is membership of the path among the paths. */
  lemma KeyAmongKeys(paths: seq<Path>, p: Path)
    ensures PathKey(p) in (set q | q in paths :: PathKey(q)) <==> p in paths
  {
    if PathKey(p) in (set q | q in paths :: PathKey(q)) {
      var q :| q in paths && PathKey(q) == PathKey(p);
      PathKeyInjective(p, q);
    }
  }
}
