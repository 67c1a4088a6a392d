/**
  The few framework string operations the services rely on: `Path.GetExtension`,
  `ToLowerInvariant`, `string.Contains` and the decimal rendering of an integer.
*/
module Text {

  /** The characters `Path.GetExtension` stops at when scanning back for a dot. */
  predicate IsSeparator(c: char) {
    c == '/' || c == '\\'
  }

  /** `path` has an extension starting at position `j`: a dot followed by at least one character, and no dot or separator after it. */
  predicate ExtensionAt(path: string, j: int) {
    && 0 <= j < |path| - 1
    && path[j] == '.'
    && forall k :: j < k < |path| ==> path[k] != '.' && !IsSeparator(path[k])
  }

  /** The position of the last dot or separator in `path[..i]`. */
  function LastDotOrSeparator(path: string, i: nat): (r: int)
    requires i <= |path|
    ensures -1 <= r < i
    ensures r >= 0 ==> path[r] == '.' || IsSeparator(path[r])
    ensures forall k :: r < k < i ==> path[k] != '.' && !IsSeparator(path[k])
  {
    if i == 0 then -1
    else if path[i - 1] == '.' || IsSeparator(path[i - 1]) then i - 1
    else LastDotOrSeparator(path, i - 1)
  }

  /**
    `Path.GetExtension`: from the last dot to the end, when that dot comes after every
    separator and is not the last character; otherwise empty.
  */
  function GetExtension(path: string): (ext: string)
    ensures ext != [] <==> exists j :: ExtensionAt(path, j)
    ensures ext != [] ==> ExtensionAt(path, |path| - |ext|) && ext == path[|path| - |ext|..]
  {
    var j := LastDotOrSeparator(path, |path|);
    if j >= 0 && path[j] == '.' && j < |path| - 1 then
      assert ExtensionAt(path, j);
      path[j..]
    else
      assert forall i :: !ExtensionAt(path, i);
      []
  }

  /** A path that ends in an extension has exactly that extension, whatever precedes it. */
  lemma ExtensionOfSuffix(prefix: string, ext: string)
    requires ExtensionAt(ext, 0)
    ensures GetExtension(prefix + ext) == ext
  {
    var path := prefix + ext;
    assert forall k :: |prefix| <= k < |path| ==> path[k] == ext[k - |prefix|];
    assert ExtensionAt(path, |prefix|);
    var found := GetExtension(path);
    assert |path| - |found| == |prefix|;
  }

  /** Lower-casing an extension keeps it an extension: dots and separators are not letters. */
  lemma LowerExtension(path: string)
    requires GetExtension(path) != []
    ensures ExtensionAt(ToLowerInvariant(GetExtension(path)), 0)
  {
    var ext := GetExtension(path);
    var lower := ToLowerInvariant(ext);
    assert ExtensionAt(ext, 0) by {
      var j := |path| - |ext|;
      assert ExtensionAt(path, j);
      forall k | 0 < k < |ext|
        ensures ext[k] != '.' && !IsSeparator(ext[k])
      {
        assert ext[k] == path[j + k];
      }
    }
    forall k | 0 <= k < |lower|
      ensures lower[k] == '.' <==> ext[k] == '.'
      ensures IsSeparator(lower[k]) <==> IsSeparator(ext[k])
    {
      assert lower[k] == ToLowerChar(ext[k]);
    }
  }

  /** A path ending in the lower-cased extension of another path has that lower-cased extension. */
  lemma LowerExtensionOfSuffix(prefix: string, path: string)
    requires GetExtension(path) != []
    ensures GetExtension(prefix + ToLowerInvariant(GetExtension(path))) == ToLowerInvariant(GetExtension(path))
  {
    LowerExtension(path);
    ExtensionOfSuffix(prefix, ToLowerInvariant(GetExtension(path)));
  }

  function ToLowerChar(c: char): (d: char)
    ensures 'A' <= c <= 'Z' ==> 'a' <= d <= 'z'
    ensures !('A' <= c <= 'Z') ==> d == c
  {
    if 'A' <= c <= 'Z' then (c as int + 32) as char else c
  }

  /** `ToLowerInvariant`, on the ASCII letters. */
  function ToLowerInvariant(s: string): (r: string)
    ensures |r| == |s|
    ensures forall i :: 0 <= i < |s| ==> r[i] == ToLowerChar(s[i])
  {
    if s == [] then [] else [ToLowerChar(s[0])] + ToLowerInvariant(s[1..])
  }

  /** `part` occurs in `s` at position `i`. */
  predicate OccursAt(s: string, part: string, i: int) {
    0 <= i && i + |part| <= |s| && s[i..i + |part|] == part
  }

  /** `string.Contains`: `part` occurs somewhere in `s`. */
  function Contains(s: string, part: string): (b: bool)
    ensures b <==> exists i :: OccursAt(s, part, i)
    decreases |s|
  {
    if |part| > |s| then false
    else if s[..|part|] == part then
      assert OccursAt(s, part, 0);
      true
    else
      OccursShifted(s, part);
      Contains(s[1..], part)
  }

  /** An occurrence past the first position is an occurrence in the tail. */
  lemma OccursShifted(s: string, part: string)
    requires |part| <= |s| && s[..|part|] != part
    ensures (exists i :: OccursAt(s, part, i)) <==> (exists i :: OccursAt(s[1..], part, i))
  {
    if exists i :: OccursAt(s, part, i) {
      var i :| OccursAt(s, part, i);
      assert i > 0;
      assert s[1..][i - 1..i - 1 + |part|] == s[i..i + |part|];
      assert OccursAt(s[1..], part, i - 1);
    }
    if exists i :: OccursAt(s[1..], part, i) {
      var i :| OccursAt(s[1..], part, i);
      assert s[i + 1..i + 1 + |part|] == s[1..][i..i + |part|];
      assert OccursAt(s, part, i + 1);
    }
  }

  function DigitChar(d: nat): char
    requires d < 10
  {
    "0123456789"[d]
  }

  function DigitValue(c: char): int {
    if '0' <= c <= '9' then c as int - '0' as int else 0
  }

  predicate IsDigit(c: char) {
    '0' <= c <= '9'
  }

  /** The number a string of decimal digits denotes. */
  function DecimalValue(s: string): int
    decreases |s|
  {
    if s == [] then 0 else 10 * DecimalValue(s[..|s| - 1]) + DigitValue(s[|s| - 1])
  }

  /** The invariant-culture rendering of a non-negative integer: digits, no leading zero. */
  function NatToString(n: nat): (s: string)
    ensures |s| >= 1 && (forall i :: 0 <= i < |s| ==> IsDigit(s[i]))
    ensures |s| > 1 ==> s[0] != '0'
    ensures DecimalValue(s) == n
    decreases n
  {
    if n < 10 then
      [DigitChar(n)]
    else
      var init := NatToString(n / 10);
      var s := init + [DigitChar(n % 10)];
      assert s[..|s| - 1] == init;
      s
  }

  /** The invariant-culture rendering of an integer: a minus sign before the digits when negative. */
  function IntToString(n: int): (s: string)
    ensures n >= 0 ==> s == NatToString(n)
    ensures n < 0 ==> s == "-" + NatToString(-n)
  {
    if n >= 0 then NatToString(n) else "-" + NatToString(-n)
  }

  /** Different numbers never render alike, so a rendered number can be read back. */
  lemma IntToStringInjective(m: int, n: int)
    requires IntToString(m) == IntToString(n)
    ensures m == n
  {
    var sm, sn := IntToString(m), IntToString(n);
    if m < 0 && n < 0 {
      assert NatToString(-m) == sm[1..] == sn[1..] == NatToString(-n);
    }
  }

  /** `string.Join(separator, parts)`. */
  function Join(parts: seq<string>, separator: string): string {
    if parts == [] then ""
    else if |parts| == 1 then parts[0]
    else parts[0] + separator + Join(parts[1..], separator)
  }
}
