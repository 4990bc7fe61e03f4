/**
 The small slice of JavaScript string and value semantics that the blog client's
 handlers rely on: optional values (`undefined`), string truthiness and `||`
 fallback, `String.prototype.trim`, `split` on a one-character separator,
 `charAt(0).toUpperCase() + slice(1)`, and `length` counted in UTF-16 code units.
 */
module JsCore {

  /** A value that may be missing (`undefined` / `null` in the source). */
  datatype Option<+T> = None | Some(value: T) {
    function GetOr(default: T): T {
      match this
      case Some(v) => v
      case None => default
    }
  }

  /** How an async handler ends: it returns a value or throws an `Error` carrying a message. */
  datatype Outcome<+T> = Returned(value: T) | Threw(message: string)

  /** JavaScript truthiness of a string: only the empty string is falsy. */
  predicate Truthy(s: string) {
    s != []
  }

  /** `s || fallback` for a string `s`. */
  function Or(s: string, fallback: string): (r: string)
    ensures Truthy(s) ==> r == s
    ensures !Truthy(s) ==> r == fallback
    ensures Truthy(fallback) ==> Truthy(r)
  {
    if Truthy(s) then s else fallback
  }

  /** `x || fallback` where `x` may be `undefined`. */
  function OrMissing(x: Option<string>, fallback: string): (r: string)
    ensures r == fallback || (x.Some? && r == x.value && Truthy(r))
    ensures x.Some? && Truthy(x.value) ==> r == x.value
    ensures Truthy(fallback) ==> Truthy(r)
  {
    match x
    case Some(s) => Or(s, fallback)
    case None => fallback
  }

  /** The characters `String.prototype.trim` removes: WhiteSpace and LineTerminator of ECMA-262. */
  const SpaceChars: set<char> := {' ', '\t', '\n', '\r', '\U{000B}', '\U{000C}', '\U{00A0}', '\U{1680}',
    '\U{2028}', '\U{2029}', '\U{202F}', '\U{205F}', '\U{3000}', '\U{FEFF}'}

  predicate IsSpace(c: char) {
    c in SpaceChars || ('\U{2000}' <= c <= '\U{200A}')
  }

  predicate AllSpace(s: string) {
    forall i :: 0 <= i < |s| ==> IsSpace(s[i])
  }

  /** `s.trimStart()`. */
  function TrimStart(s: string): (r: string)
    ensures |r| <= |s| && r == s[|s| - |r|..]
    ensures r == [] || !IsSpace(r[0])
  {
    if s != [] && IsSpace(s[0]) then TrimStart(s[1..]) else s
  }

  /** Everything `trimStart` cuts off is white space. */
  lemma {:induction false} TrimStartDropsSpace(s: string)
    ensures forall i :: 0 <= i < |s| - |TrimStart(s)| ==> IsSpace(s[i])
  {
    if s != [] && IsSpace(s[0]) {
      var tail := s[1..];
      TrimStartDropsSpace(tail);
      assert TrimStart(s) == TrimStart(tail);
      SpacePrefixCons(s, tail, |tail| - |TrimStart(tail)|);
    }
  }

  lemma SpacePrefixCons(s: string, tail: string, n: nat)
    requires s != [] && tail == s[1..] && n <= |tail| && IsSpace(s[0])
    requires forall i :: 0 <= i < n ==> IsSpace(tail[i])
    ensures forall i :: 0 <= i < n + 1 ==> IsSpace(s[i])
  {
    forall i | 1 <= i < n + 1
      ensures IsSpace(s[i])
    {
      assert s[i] == tail[i - 1];
    }
  }

  /** `s.trimEnd()`. */
  function TrimEnd(s: string): (r: string)
    ensures |r| <= |s| && r == s[..|r|]
    ensures r == [] || !IsSpace(r[|r| - 1])
  {
    if s != [] && IsSpace(s[|s| - 1]) then TrimEnd(s[..|s| - 1]) else s
  }

  /** Everything `trimEnd` cuts off is white space. */
  lemma {:induction false} TrimEndDropsSpace(s: string)
    ensures forall i :: |TrimEnd(s)| <= i < |s| ==> IsSpace(s[i])
  {
    if s != [] && IsSpace(s[|s| - 1]) {
      var init := s[..|s| - 1];
      TrimEndDropsSpace(init);
      assert TrimEnd(s) == TrimEnd(init);
      SpaceSuffixSnoc(s, init, |TrimEnd(init)|);
    }
  }

  lemma SpaceSuffixSnoc(s: string, init: string, n: nat)
    requires s != [] && init == s[..|s| - 1] && n <= |init| && IsSpace(s[|s| - 1])
    requires forall i :: n <= i < |init| ==> IsSpace(init[i])
    ensures forall i :: n <= i < |s| ==> IsSpace(s[i])
  {
    forall i | n <= i < |init|
      ensures IsSpace(s[i])
    {
      assert s[i] == init[i];
    }
  }

  /** `s.trim()`: neither end of the result is white space. */
  function Trim(s: string): (r: string)
    ensures |r| <= |s|
    ensures r == [] || (!IsSpace(r[0]) && !IsSpace(r[|r| - 1]))
  {
    var t := TrimStart(s);
    var r := TrimEnd(t);
    assert r != [] ==> r[0] == t[0];
    r
  }

  /** `trim` keeps a contiguous infix of its input and cuts off only white space on either side of it. */
  lemma TrimRemovesOnlySpace(s: string)
    ensures var k := |s| - |TrimStart(s)|; var r := Trim(s);
      && k + |r| <= |s| && r == s[k..k + |r|]
      && (forall i :: 0 <= i < k ==> IsSpace(s[i]))
      && (forall i :: k + |r| <= i < |s| ==> IsSpace(s[i]))
  {
    var t := TrimStart(s);
    var r := TrimEnd(t);
    TrimStartDropsSpace(s);
    TrimEndDropsSpace(t);
    SpaceAround(s, t, r);
    assert Trim(s) == r;
  }

  /** The slice arithmetic behind `trim`: an infix of a suffix, with white space cut from both. */
  lemma SpaceAround(s: string, t: string, r: string)
    requires |t| <= |s| && t == s[|s| - |t|..]
    requires |r| <= |t| && r == t[..|r|]
    requires forall i :: 0 <= i < |s| - |t| ==> IsSpace(s[i])
    requires forall i :: |r| <= i < |t| ==> IsSpace(t[i])
    ensures var k := |s| - |t|;
      && k + |r| <= |s| && r == s[k..k + |r|]
      && (forall i :: 0 <= i < k ==> IsSpace(s[i]))
      && (forall i :: k + |r| <= i < |s| ==> IsSpace(s[i]))
  {
    var k := |s| - |t|;
    forall i | k + |r| <= i < |s|
      ensures IsSpace(s[i])
    {
      assert s[i] == t[i - k];
    }
  }

  /** `!s.trim()`: the string is empty or white space only. */
  predicate Blank(s: string) {
    Trim(s) == []
  }

  lemma BlankIffAllSpace(s: string)
    ensures Blank(s) <==> AllSpace(s)
  {
    var t := TrimStart(s);
    TrimStartDropsSpace(s);
    if Trim(s) == [] {
      TrimEndDropsSpace(t);
      assert t == [];
    } else {
      assert t != [] && !IsSpace(t[0]);
      assert t[0] == s[|s| - |t|];
    }
  }

  /** Trimming is idempotent: a trimmed string has nothing left to trim. */
  lemma TrimIdempotent(s: string)
    ensures Trim(Trim(s)) == Trim(s)
  {
    var r := Trim(s);
    assert TrimStart(r) == r;
    assert TrimEnd(r) == r;
  }

  /** `c.toUpperCase()` for the Basic Latin letters. */
  function UpperChar(c: char): char {
    if 'a' <= c <= 'z' then (c as int - 32) as char else c
  }

  /** `s.charAt(0).toUpperCase() + s.slice(1)`. */
  function UpperFirst(s: string): (r: string)
    ensures |r| == |s|
    ensures s != [] ==> r[0] == UpperChar(s[0]) && r[1..] == s[1..]
  {
    if s == [] then [] else [UpperChar(s[0])] + s[1..]
  }

  lemma UpperFirstIdempotent(s: string)
    ensures UpperFirst(UpperFirst(s)) == UpperFirst(s)
  {
  }

  function StartsWith(s: string, prefix: string): bool {
    |prefix| <= |s| && s[..|prefix|] == prefix
  }

  function EndsWith(s: string, suffix: string): bool {
    |suffix| <= |s| && s[|s| - |suffix|..] == suffix
  }

  /** Index of the first occurrence of `c` in `s`, or -1 (`indexOf`). */
  function IndexOf(s: string, c: char): (k: int)
    ensures -1 <= k < |s|
    ensures k >= 0 ==> s[k] == c && c !in s[..k]
    ensures k == -1 ==> c !in s
  {
    if s == [] then -1
    else if s[0] == c then 0
    else
      var k := IndexOf(s[1..], c);
      if k == -1 then -1 else k + 1
  }

  /** `s.split(sep)` for a one-character separator. */
  function Split(s: string, sep: char): (r: seq<string>)
    ensures |r| >= 1
    ensures forall i :: 0 <= i < |r| ==> sep !in r[i]
    decreases |s|
  {
    var k := IndexOf(s, sep);
    if k == -1 then [s] else [s[..k]] + Split(s[k + 1..], sep)
  }

  /** `parts.join(sep)`. */
  function Join(parts: seq<string>, sep: char): string
    requires |parts| >= 1
  {
    if |parts| == 1 then parts[0] else parts[0] + [sep] + Join(parts[1..], sep)
  }

  /** Joining the pieces of a split with the same separator gives the string back. */
  lemma {:induction false} JoinSplit(s: string, sep: char)
    ensures Join(Split(s, sep), sep) == s
    decreases |s|
  {
    var k := IndexOf(s, sep);
    if k != -1 {
      var rest := s[k + 1..];
      SplitAt(s, sep, k);
      JoinSplit(rest, sep);
      JoinCons(s[..k], Split(rest, sep), sep);
      assert s == s[..k] + [sep] + rest;
    }
  }

  lemma JoinCons(x: string, parts: seq<string>, sep: char)
    requires |parts| >= 1
    ensures Join([x] + parts, sep) == x + [sep] + Join(parts, sep)
  {
    assert ([x] + parts)[1..] == parts;
  }

  /** Splitting undoes joining when no part contains the separator. */
  lemma {:induction false} SplitJoin(parts: seq<string>, sep: char)
    requires |parts| >= 1
    requires forall i :: 0 <= i < |parts| ==> sep !in parts[i]
    ensures Split(Join(parts, sep), sep) == parts
  {
    var s := Join(parts, sep);
    if |parts| == 1 {
      assert IndexOf(s, sep) == -1;
    } else {
      var tail := Join(parts[1..], sep);
      assert s == parts[0] + [sep] + tail;
      var k := IndexOf(s, sep);
      assert s[|parts[0]|] == sep;
      assert k == |parts[0]| by {
        assert s[..|parts[0]|] == parts[0];
        assert sep !in s[..|parts[0]|];
      }
      assert s[..k] == parts[0];
      assert s[k + 1..] == tail;
      SplitJoin(parts[1..], sep);
    }
  }

  /** The first piece of `s.split(sep)`: everything before the first separator. */
  lemma SplitHead(s: string, sep: char)
    ensures var h := Split(s, sep)[0];
      StartsWith(s, h) && sep !in h && (|h| == |s| || s[|h|] == sep)
  {
    var k := IndexOf(s, sep);
    if k != -1 {
      assert s[..k] + [sep] + s[k + 1..] == s;
    }
  }

  /** The last piece of `s.split(sep)`: everything after the last separator. */
  lemma {:induction false} SplitLast(a: string, sep: char, w: string)
    requires sep !in w
    ensures var parts := Split(a + [sep] + w, sep); parts[|parts| - 1] == w
    decreases |a|
  {
    var s := a + [sep] + w;
    var j := IndexOf(a, sep);
    if j == -1 {
      assert s[..|a|] == a;
      SplitAt(s, sep, |a|);
      assert s[|a| + 1..] == w;
      assert IndexOf(w, sep) == -1;
    } else {
      assert s[..j] == a[..j];
      SplitAt(s, sep, j);
      var a' := a[j + 1..];
      DropConcat(a, [sep] + w, j + 1);
      assert s[j + 1..] == a' + [sep] + w;
      SplitLast(a', sep, w);
    }
  }

  /** `indexOf` finds the first occurrence. */
  lemma IndexOfIsFirst(s: string, c: char, k: int)
    requires 0 <= k < |s| && s[k] == c && c !in s[..k]
    ensures IndexOf(s, c) == k
  {
  }

  /** Splitting at the first separator. */
  lemma SplitAt(s: string, sep: char, k: int)
    requires 0 <= k < |s| && s[k] == sep && sep !in s[..k]
    ensures Split(s, sep) == [s[..k]] + Split(s[k + 1..], sep)
  {
    IndexOfIsFirst(s, sep, k);
  }

  lemma DropConcat(x: string, y: string, n: nat)
    requires n <= |x|
    ensures (x + y)[n..] == x[n..] + y
  {
  }

  /** `s.length`: the number of UTF-16 code units, two for a character outside the Basic Multilingual Plane. */
  function Utf16Length(s: string): (n: nat)
    ensures |s| <= n <= 2 * |s|
  {
    if s == [] then 0
    else (if s[0] as int > 0xFFFF then 2 else 1) + Utf16Length(s[1..])
  }
}
