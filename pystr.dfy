/** The few Python `str` operations the scripts rely on, written out over `seq<char>`. */
module PyStr {
  import opened Wrappers

  /** `s.startswith(prefix)` */
  predicate StartsWith(s: string, prefix: string) {
    |prefix| <= |s| && s[..|prefix|] == prefix
  }

  /** `sub in s` */
  predicate Contains(s: string, sub: string)
    decreases |s|
  {
    StartsWith(s, sub) || (|s| > 0 && Contains(s[1..], sub))
  }

  /** `c.isspace()`: the ASCII whitespace and separators together with the Unicode space characters. */
  predicate IsSpace(c: char) {
    var n := c as int;
    (9 <= n <= 13) || (28 <= n <= 32) || n == 0x85 || n == 0xA0 || n == 0x1680
    || (0x2000 <= n <= 0x200A) || n == 0x2028 || n == 0x2029 || n == 0x202F
    || n == 0x205F || n == 0x3000
  }

  /** `s.rstrip()`: the longest prefix of `s` after which only whitespace follows. */
  function RStrip(s: string): (r: string)
    ensures |r| <= |s| && r == s[..|r|]
    ensures r == [] || !IsSpace(r[|r| - 1])
    ensures forall i :: |r| <= i < |s| ==> IsSpace(s[i])
    decreases |s|
  {
    if |s| > 0 && IsSpace(s[|s| - 1]) then RStrip(s[..|s| - 1]) else s
  }

  /** `s.rfind(c)` as an option: the position of the last occurrence of `c`. */
  function LastIndexOf(s: string, c: char): (r: Option<nat>)
    ensures r.None? ==> forall i :: 0 <= i < |s| ==> s[i] != c
    ensures r.Some? ==>
      r.value < |s| && s[r.value] == c && forall i :: r.value < i < |s| ==> s[i] != c
    decreases |s|
  {
    if |s| == 0 then None
    else if s[|s| - 1] == c then Some(|s| - 1)
    else LastIndexOf(s[..|s| - 1], c)
  }

  /** The second half of a split at the last '/'; `None` where Python raises IndexError because there is no '/'. */
  function AfterLastSlash(s: string): (r: Option<string>)
    ensures r.None? <==> forall i :: 0 <= i < |s| ==> s[i] != '/'
    ensures r.Some? ==>
      '/' !in r.value && exists k :: 0 <= k < |s| && s[k] == '/' && r.value == s[k + 1..]
  {
    match LastIndexOf(s, '/')
    case None => None
    case Some(k) => Some(s[k + 1..])
  }

  /** `pathlib.PurePath(name).suffix`: from the last '.' on, unless that dot leads or ends the name. */
  function NameSuffix(name: string): (r: string)
    ensures r != [] ==> r[0] == '.' && |r| >= 2 && |r| < |name| && r == name[|name| - |r|..]
    ensures r != [] ==> '.' !in r[1..]
  {
    match LastIndexOf(name, '.')
    case None => ""
    case Some(i) => if 0 < i < |name| - 1 then name[i..] else ""
  }

  /** The suffix is empty exactly when no dot of the name is both its last dot and strictly inside it. */
  lemma NameSuffixEmpty(name: string)
    ensures NameSuffix(name) == [] <==>
      forall i :: 0 < i < |name| - 1 && name[i] == '.' ==> exists j :: i < j < |name| && name[j] == '.'
  {
    match LastIndexOf(name, '.')
    case None =>
    case Some(k) =>
      if 0 < k < |name| - 1 {
        assert name[k] == '.' && forall j :: k < j < |name| ==> name[j] != '.';
      } else {
        forall i | 0 < i < |name| - 1 && name[i] == '.' ensures exists j :: i < j < |name| && name[j] == '.' {
          assert i != k && i < k && name[k] == '.';
        }
      }
  }

  /** Any non-empty stem followed by `.desktop` has the suffix `.desktop`. */
  lemma DesktopNameSuffix(stem: string)
    requires stem != []
    ensures NameSuffix(stem + ".desktop") == ".desktop"
  {
    var name := stem + ".desktop";
    assert name[|stem|] == '.';
    assert forall j :: |stem| < j < |name| ==> name[j] == ".desktop"[j - |stem|];
    assert name[|stem|..] == ".desktop";
  }

  function Upper(c: char): char {
    if 'a' <= c <= 'z' then (c as int - 32) as char else c
  }

  function Lower(c: char): char {
    if 'A' <= c <= 'Z' then (c as int + 32) as char else c
  }

  /** `s.capitalize()` restricted to ASCII letters: first character upper case, the rest lower case. */
  function Capitalize(s: string): (r: string)
    ensures |r| == |s|
    ensures |s| > 0 ==> r[0] == Upper(s[0])
    ensures forall i :: 0 < i < |s| ==> r[i] == Lower(s[i])
  {
    if s == [] then [] else [Upper(s[0])] + seq(|s| - 1, i requires 0 <= i < |s| - 1 => Lower(s[i + 1]))
  }

  /** Decimal digits of a natural number, most significant first, as `str(n)` prints them. */
  function NatToDecimal(n: nat): (r: string)
    ensures |r| > 0 && forall i :: 0 <= i < |r| ==> '0' <= r[i] <= '9'
    ensures |r| > 1 ==> r[0] != '0'
  {
    if n < 10 then [('0' as int + n) as char]
    else NatToDecimal(n / 10) + [('0' as int + n % 10) as char]
  }

  /** `str(n)` for an integer. */
  function IntToString(n: int): (r: string)
    ensures |r| > 0
    ensures n >= 0 <==> r[0] != '-'
  {
    if n >= 0 then NatToDecimal(n) else "-" + NatToDecimal(-n)
  }

  /** The value of a string of decimal digits: the inverse of `NatToDecimal`. */
  function DecimalValue(s: string): int {
    if s == [] then 0 else 10 * DecimalValue(s[..|s| - 1]) + (s[|s| - 1] as int - '0' as int)
  }

  lemma {:induction false} DecimalRoundTrip(n: nat)
    ensures DecimalValue(NatToDecimal(n)) == n
  {
    if n >= 10 {
      var s := NatToDecimal(n);
      assert s[..|s| - 1] == NatToDecimal(n / 10);
      DecimalRoundTrip(n / 10);
    }
  }

  /** Distinct integers print differently, so a membership test on `str(n)` is a test on `n`. */
  lemma IntToStringInjective(m: int, n: int)
    requires IntToString(m) == IntToString(n)
    ensures m == n
  {
    if m >= 0 && n >= 0 {
      DecimalRoundTrip(m);
      DecimalRoundTrip(n);
    } else if m < 0 && n < 0 {
      assert NatToDecimal(-m) == IntToString(m)[1..];
      assert NatToDecimal(-n) == IntToString(n)[1..];
      DecimalRoundTrip(-m);
      DecimalRoundTrip(-n);
    }
  }
}
