/**
 * The two string normalisations the catalogue applies to currency symbols and
 * names: `str.upper()` restricted to ASCII letters, and `str.strip()` with
 * Python's set of whitespace characters.
 */
module Text {

  /** An ASCII lower-case letter. */
  predicate IsLower(c: char)
  {
    'a' <= c <= 'z'
  }

  function UpperChar(c: char): (u: char)
    ensures !IsLower(u)
    ensures IsLower(c) ==> u as int == c as int - 32 && 'A' <= u <= 'Z'
    ensures !IsLower(c) ==> u == c
  {
    if IsLower(c) then (c as int - 32) as char else c
  }

  /** Upper-case every ASCII letter; every other character is kept. */
  function Upper(s: string): (u: string)
    ensures |u| == |s|
    ensures forall i :: 0 <= i < |s| ==> u[i] == UpperChar(s[i])
    ensures forall i :: 0 <= i < |u| ==> !IsLower(u[i])
  {
    seq(|s|, i requires 0 <= i < |s| => UpperChar(s[i]))
  }

  /** The characters Python's `str.isspace()` accepts, which `strip()` removes. */
  predicate IsSpace(c: char)
  {
    var n := c as int;
    || (0x09 <= n <= 0x0D) || (0x1C <= n <= 0x20)
    || n == 0x85 || n == 0xA0 || n == 0x1680
    || (0x2000 <= n <= 0x200A)
    || n == 0x2028 || n == 0x2029 || n == 0x202F || n == 0x205F || n == 0x3000
  }

  /** Drop leading whitespace: what remains is a suffix that starts with non-space. */
  function TrimStart(s: string): (t: string)
    ensures |t| <= |s| && t == s[|s| - |t|..]
    ensures forall i :: 0 <= i < |s| - |t| ==> IsSpace(s[i])
    ensures t != [] ==> !IsSpace(t[0])
  {
    if s != [] && IsSpace(s[0]) then TrimStart(s[1..]) else s
  }

  /** Drop trailing whitespace: what remains is a prefix that ends with non-space. */
  function TrimEnd(s: string): (t: string)
    ensures |t| <= |s| && t == s[..|t|]
    ensures forall i :: |t| <= i < |s| ==> IsSpace(s[i])
    ensures t != [] ==> !IsSpace(t[|t| - 1])
  {
    if s != [] && IsSpace(s[|s| - 1]) then TrimEnd(s[..|s| - 1]) else s
  }

  /** How many whitespace characters `s` starts with. */
  function LeadingSpaces(s: string): (n: nat)
    ensures n <= |s|
    ensures forall k :: 0 <= k < n ==> IsSpace(s[k])
    ensures n < |s| ==> !IsSpace(s[n])
  {
    |s| - |TrimStart(s)|
  }

  /**
   * Python's `s.strip()`: the slice of `s` that starts after its leading
   * whitespace and stops where only whitespace follows; it neither starts nor
   * ends with whitespace.
   */
  function Strip(s: string): (t: string)
    ensures |t| <= |s|
    ensures LeadingSpaces(s) + |t| <= |s| && t == s[LeadingSpaces(s)..][..|t|]
    ensures forall k :: LeadingSpaces(s) + |t| <= k < |s| ==> IsSpace(s[k])
    ensures forall c :: c in t ==> c in s
    ensures t != [] ==> !IsSpace(t[0]) && !IsSpace(t[|t| - 1])
  {
    var a := TrimStart(s);
    var t := TrimEnd(a);
    SliceOfSuffix(s, a, t);
    assert t != [] ==> t[0] == a[0];
    t
  }

  /** A prefix `t` of a suffix `a` of `s` is a slice of `s`, and what follows it in `s` follows it in `a`. */
  lemma SliceOfSuffix(s: string, a: string, t: string)
    requires |a| <= |s| && a == s[|s| - |a|..]
    requires |t| <= |a| && t == a[..|t|]
    ensures t == s[|s| - |a|..|s| - |a| + |t|]
    ensures forall k :: |s| - |a| + |t| <= k < |s| ==> s[k] == a[k - (|s| - |a|)]
    ensures forall c :: c in t ==> c in s
  {
    var i := |s| - |a|;
    forall c | c in t
      ensures c in s
    {
      var j :| 0 <= j < |t| && t[j] == c;
      assert s[i + j] == c;
    }
  }

  /** Stripping twice is stripping once. */
  lemma StripIdempotent(s: string)
    ensures Strip(Strip(s)) == Strip(s)
  {
    var t := Strip(s);
    assert TrimStart(t) == t;
    assert TrimEnd(t) == t;
  }

  /** The symbol normalisation of `create_currency`: upper-case, then strip. */
  function NormalSymbol(s: string): (t: string)
    ensures t == Strip(Upper(s))
    ensures |t| <= |s|
    ensures forall i :: 0 <= i < |t| ==> !IsLower(t[i])
    ensures t != [] ==> !IsSpace(t[0]) && !IsSpace(t[|t| - 1])
  {
    var u := Upper(s);
    var t := Strip(u);
    forall i | 0 <= i < |t|
      ensures !IsLower(t[i])
    {
      assert t[i] in u;
      var j :| 0 <= j < |u| && u[j] == t[i];
    }
    t
  }

  /** A stored symbol is already normal, so normalising it again finds it. */
  lemma NormalSymbolIdempotent(s: string)
    ensures NormalSymbol(NormalSymbol(s)) == NormalSymbol(s)
  {
    var t := NormalSymbol(s);
    assert Upper(t) == t;
    StripIdempotent(Upper(s));
  }
}
