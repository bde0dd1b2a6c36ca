/**
 * The pieces of PHP's runtime semantics that the service relies on:
 * `rtrim($s, '/')`, `basename` (POSIX form, no suffix argument), the
 * decimal rendering of an integer (`%d`, `"{$i}"`), the `(int)` cast of a
 * string, the truthiness test behind `?:`, and the two exception classes
 * the service throws.
 */
module Php {
  import opened Wrappers

  // ---------------------------------------------------------------------
  // rtrim($s, '/')
  // ---------------------------------------------------------------------

  /** `rtrim(s, '/')`: the longest prefix of `s` that does not end in '/',
      with everything removed behind it being '/'. */
  function RTrimSlashes(s: string): (r: string)
    ensures |r| <= |s| && r == s[..|r|]
    ensures r == [] || r[|r| - 1] != '/'
    ensures forall i :: |r| <= i < |s| ==> s[i] == '/'
    decreases |s|
  {
    if s != [] && s[|s| - 1] == '/' then RTrimSlashes(s[..|s| - 1]) else s
  }

  /** The three properties in the contract of RTrimSlashes pin the result
      down: any string that has them is the trimmed string. */
  lemma RTrimSlashesUnique(s: string, r: string)
    requires |r| <= |s| && r == s[..|r|]
    requires r == [] || r[|r| - 1] != '/'
    requires forall i :: |r| <= i < |s| ==> s[i] == '/'
    ensures RTrimSlashes(s) == r
  {
    var t := RTrimSlashes(s);
    assert |t| == |r|;
  }

  /** Trimming twice is trimming once. */
  lemma RTrimSlashesIdempotent(s: string)
    ensures RTrimSlashes(RTrimSlashes(s)) == RTrimSlashes(s)
  {
    var t := RTrimSlashes(s);
    RTrimSlashesUnique(t, t);
  }

  // ---------------------------------------------------------------------
  // basename($path)
  // ---------------------------------------------------------------------

  /** The part of `t` after its last '/' (all of `t` when it has none). */
  function LastComponent(t: string): (r: string)
    ensures '/' !in r
    ensures |r| <= |t| && r == t[|t| - |r|..]
    ensures |r| == |t| || t[|t| - |r| - 1] == '/'
    decreases |t|
  {
    if t == [] || t[|t| - 1] == '/' then [] else LastComponent(t[..|t| - 1]) + [t[|t| - 1]]
  }

  /** PHP's `basename` on a POSIX system: trailing slashes are dropped, then
      the last path component is returned. "/" and "" give "". */
  function Basename(path: string): (r: string)
    ensures '/' !in r
  {
    LastComponent(RTrimSlashes(path))
  }

  /** A component following a '/' (or standing alone) is its own last
      component: the last component is the longest '/'-free suffix, and
      `name` is exactly that suffix of `p + name`. */
  lemma LastComponentAfterSlash(p: string, name: string)
    requires p == [] || p[|p| - 1] == '/'
    requires '/' !in name
    ensures LastComponent(p + name) == name
  {
    var t := p + name;
    assert t[|p|..] == name;
  }

  /** `basename(dir . '/' . name)` is `name` when `name` is a single,
      non-empty path component, whatever `dir` is. */
  lemma BasenameOfJoin(dir: string, name: string)
    requires name != [] && '/' !in name
    ensures Basename(dir + "/" + name) == name
  {
    var path := dir + "/" + name;
    assert path[|path| - 1] == name[|name| - 1];
    assert RTrimSlashes(path) == path;
    assert path == (dir + "/") + name;
    LastComponentAfterSlash(dir + "/", name);
  }

  /** A path holding a character other than '/' has a non-empty basename. */
  lemma BasenameNonEmpty(path: string, k: nat)
    requires k < |path| && path[k] != '/'
    ensures Basename(path) != []
  {
    var t := RTrimSlashes(path);
    assert k < |t|;
    assert t[|t| - 1] != '/';
  }

  // ---------------------------------------------------------------------
  // Decimal digits: "%d", "{$i}" and (int) casts
  // ---------------------------------------------------------------------

  predicate IsDigit(c: char) { '0' <= c <= '9' }

  predicate AllDigits(s: string) { forall i :: 0 <= i < |s| ==> IsDigit(s[i]) }

  function DigitChar(d: int): (c: char)
    requires 0 <= d < 10
  {
    (48 + d) as char
  }

  /** The decimal rendering of a natural number, without leading zeros. */
  function NatToString(n: nat): (s: string)
    ensures s != [] && AllDigits(s)
    ensures s[0] != '0' || s == "0"
    decreases n
  {
    if n < 10 then [DigitChar(n)] else NatToString(n / 10) + [DigitChar(n % 10)]
  }

  /** The decimal rendering of an integer, as `sprintf('%d', i)` and string
      interpolation produce it. */
  function IntToString(i: int): (s: string)
    ensures s != [] && (s[0] == '-' <==> i < 0)
    ensures AllDigits(if i < 0 then s[1..] else s) && '/' !in s
  {
    if i < 0 then "-" + NatToString(-i) else NatToString(i)
  }

  /** The value of a string of decimal digits, most significant first. */
  function DigitsValue(s: string): (n: nat)
    requires AllDigits(s)
    decreases |s|
  {
    if s == [] then 0 else DigitsValue(s[..|s| - 1]) * 10 + (s[|s| - 1] as int - 48)
  }

  /** Reading back a rendered natural number gives the number. */
  lemma {:induction false} NatToStringRoundTrip(n: nat)
    ensures DigitsValue(NatToString(n)) == n
    decreases n
  {
    if n >= 10 {
      var s := NatToString(n / 10);
      NatToStringRoundTrip(n / 10);
      var t := s + [DigitChar(n % 10)];
      assert t[..|t| - 1] == s;
    }
  }

  /** Distinct numbers have distinct renderings. */
  lemma NatToStringInjective(a: nat, b: nat)
    requires NatToString(a) == NatToString(b)
    ensures a == b
  {
    NatToStringRoundTrip(a);
    NatToStringRoundTrip(b);
  }

  /** The whitespace PHP skips before a number: space, \t, \n, \r, \v, \f. */
  predicate IsSpace(c: char)
  {
    c == ' ' || c == '\t' || c == '\n' || c == '\r' || c == 11 as char || c == 12 as char
  }

  /** `s` without its leading whitespace. */
  function SkipSpaces(s: string): (r: string)
    ensures |r| <= |s| && r == s[|s| - |r|..]
    ensures r == [] || !IsSpace(r[0])
    ensures forall i :: 0 <= i < |s| - |r| ==> IsSpace(s[i])
    decreases |s|
  {
    if s != [] && IsSpace(s[0]) then SkipSpaces(s[1..]) else s
  }

  /** The longest prefix of `s` made of decimal digits. */
  function LeadingDigits(s: string): (d: string)
    ensures |d| <= |s| && d == s[..|d|] && AllDigits(d)
    ensures |d| == |s| || !IsDigit(s[|d|])
    decreases |s|
  {
    if s != [] && IsDigit(s[0]) then [s[0]] + LeadingDigits(s[1..]) else []
  }

  /** PHP's `(int)` cast of a string: leading whitespace, an optional sign,
      then as many decimal digits as follow; no digits gives 0. */
  function IntCast(s: string): (n: int)
    ensures n < 0 ==> SkipSpaces(s) != [] && SkipSpaces(s)[0] == '-'
    ensures (SkipSpaces(s) == []
             || (SkipSpaces(s)[0] != '-' && SkipSpaces(s)[0] != '+' && !IsDigit(SkipSpaces(s)[0]))) ==> n == 0
  {
    var t := SkipSpaces(s);
    if t != [] && t[0] == '-' then -(DigitsValue(LeadingDigits(t[1..])) as int)
    else if t != [] && t[0] == '+' then DigitsValue(LeadingDigits(t[1..]))
    else DigitsValue(LeadingDigits(t))
  }

  /** A string of digits is its own longest digit prefix. */
  lemma LeadingDigitsOfDigits(s: string)
    requires AllDigits(s)
    ensures LeadingDigits(s) == s
  {
    var d := LeadingDigits(s);
    assert |d| == |s|;
  }

  /** `(int)` reads back what `%d` writes, for every integer. */
  lemma IntCastIntToStringAll()
    ensures forall i: int {:trigger IntToString(i)} :: IntCast(IntToString(i)) == i
  {
    forall i: int {
      IntCastIntToString(i);
    }
  }

  /** `(int)` reads back what `%d` writes. */
  lemma IntCastIntToString(i: int)
    ensures IntCast(IntToString(i)) == i
  {
    var s := IntToString(i);
    var digits := NatToString(if i < 0 then -i else i);
    assert !IsSpace(s[0]);
    assert SkipSpaces(s) == s;
    LeadingDigitsOfDigits(digits);
    NatToStringRoundTrip(if i < 0 then -i else i);
    if i < 0 {
      assert s[1..] == digits;
    } else {
      assert s == digits;
      assert s[0] != '-' && s[0] != '+';
    }
  }

  // ---------------------------------------------------------------------
  // getenv() and `?:`
  // ---------------------------------------------------------------------

  /** `getenv(key)`: the value, or None where PHP returns false. */
  function GetEnv(env: map<string, string>, key: string): (r: Option<string>)
    ensures r.Some? <==> key in env
    ensures r.Some? ==> r.value == env[key]
  {
    if key in env then Some(env[key]) else None
  }

  /** PHP truthiness of what `getenv` returns: false, "" and "0" are falsy. */
  predicate Falsy(v: Option<string>)
    ensures Falsy(v) <==> v == None || v == Some("") || v == Some("0")
    ensures v.Some? && |v.value| > 1 ==> !Falsy(v)
  {
    v.None? || v.value == "" || v.value == "0"
  }

  /** `v ?: fallback`. */
  function OrElse(v: Option<string>, fallback: string): (r: string)
    ensures Falsy(v) ==> r == fallback
    ensures !Falsy(v) ==> Some(r) == v
    ensures !Falsy(Some(fallback)) ==> !Falsy(Some(r))
  {
    if Falsy(v) then fallback else v.value
  }

  // ---------------------------------------------------------------------
  // Exceptions
  // ---------------------------------------------------------------------

  datatype ExceptionClass = InvalidArgumentException | RuntimeException

  /** A thrown exception: its class, `getMessage()` and `getCode()`. */
  datatype Exception = Exception(kind: ExceptionClass, message: string, code: int)

  /** `get_class($e)`. */
  function ClassName(c: ExceptionClass): (r: string)
    ensures r == "RuntimeException" <==> c == RuntimeException
    ensures r == "InvalidArgumentException" <==> c == InvalidArgumentException
  {
    match c
    case InvalidArgumentException => "InvalidArgumentException"
    case RuntimeException => "RuntimeException"
  }

  /** `new InvalidArgumentException($message)`; the code defaults to 0. */
  function InvalidArgument(message: string): Exception
  {
    Exception(InvalidArgumentException, message, 0)
  }

  /** `new RuntimeException($message)`; the code defaults to 0. */
  function Runtime(message: string): Exception
  {
    Exception(RuntimeException, message, 0)
  }
}
