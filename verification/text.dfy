/** The string operations the service and its client rely on: JavaScript's
    `trim`, `split(',')`, `toLowerCase` and `includes`, over `seq<char>`. */
module Text {

  /** The code points JavaScript's `String.prototype.trim` strips: the
      WhiteSpace (TAB, VT, FF, SP, NBSP, ZWNBSP and the Zs category) and
      LineTerminator (LF, CR, LS, PS) characters. */
  predicate IsSpace(c: char) {
    var n := c as int;
    || n == 0x09 || n == 0x0A || n == 0x0B || n == 0x0C || n == 0x0D
    || n == 0x20 || n == 0xA0 || n == 0x1680 || (0x2000 <= n <= 0x200A)
    || n == 0x2028 || n == 0x2029 || n == 0x202F || n == 0x205F
    || n == 0x3000 || n == 0xFEFF
  }

  /** Within ASCII, `trim` strips exactly TAB, LF, VT, FF, CR and space. */
  lemma AsciiWhitespace()
    ensures forall c: char | c as int < 0x80 :: IsSpace(c) <==> c in "\t\n\U{B}\U{C}\r "
  {
  }

  predicate AllSpace(s: string) {
    forall k | 0 <= k < |s| :: IsSpace(s[k])
  }

  /** Neither starts nor ends with whitespace. */
  predicate IsTrimmed(s: string) {
    s == [] || (!IsSpace(s[0]) && !IsSpace(s[|s| - 1]))
  }

  /** `r` sits at offset `i` of `s` with nothing but whitespace around it. */
  predicate Framed(s: string, i: int, r: string) {
    && 0 <= i && i + |r| <= |s|
    && s[i..i + |r|] == r
    && AllSpace(s[..i])
    && AllSpace(s[i + |r|..])
  }

  /** `s` without its leading whitespace. */
  function TrimStart(s: string): (r: string)
    ensures |r| <= |s|
    ensures r == [] || !IsSpace(r[0])
    decreases |s|
  {
    if s != [] && IsSpace(s[0]) then TrimStart(s[1..]) else s
  }

  /** What `TrimStart` removes is a whitespace prefix; it keeps the rest. */
  lemma {:induction false} TrimStartIsSuffix(s: string)
    ensures TrimStart(s) == s[|s| - |TrimStart(s)|..]
    ensures AllSpace(s[..|s| - |TrimStart(s)|])
    decreases |s|
  {
    if s != [] && IsSpace(s[0]) {
      var t := TrimStart(s[1..]);
      TrimStartIsSuffix(s[1..]);
      assert s[|s| - |t|..] == s[1..][|s[1..]| - |t|..];
      assert s[..|s| - |t|] == [s[0]] + s[1..][..|s[1..]| - |t|];
    }
  }

  /** `s` without its trailing whitespace. */
  function TrimEnd(s: string): (r: string)
    ensures |r| <= |s|
    ensures r == [] || !IsSpace(r[|r| - 1])
    decreases |s|
  {
    if s != [] && IsSpace(s[|s| - 1]) then TrimEnd(s[..|s| - 1]) else s
  }

  /** What `TrimEnd` removes is a whitespace suffix; it keeps the rest. */
  lemma {:induction false} TrimEndIsPrefix(s: string)
    ensures TrimEnd(s) == s[..|TrimEnd(s)|]
    ensures AllSpace(s[|TrimEnd(s)|..])
    decreases |s|
  {
    if s != [] && IsSpace(s[|s| - 1]) {
      var init := s[..|s| - 1];
      var t := TrimEnd(init);
      TrimEndIsPrefix(init);
      assert s[..|t|] == init[..|t|];
      assert s[|t|..] == init[|t|..] + [s[|s| - 1]];
    }
  }

  /** JavaScript's `s.trim()`: no leading or trailing whitespace, and never
      longer than the input; `TrimIsFramed` places it inside `s`. */
  function Trim(s: string): (r: string)
    ensures IsTrimmed(r)
    ensures |r| <= |s|
  {
    var a := TrimStart(s);
    var r := TrimEnd(a);
    assert r == [] || !IsSpace(r[0]) by {
      if r != [] {
        TrimEndIsPrefix(a);
        assert r[0] == a[0];
      }
    }
    r
  }

  /** The trimmed string sits in the input with only whitespace around it. */
  lemma TrimIsFramed(s: string)
    ensures exists i | 0 <= i <= |s| :: Framed(s, i, Trim(s))
  {
    var a := TrimStart(s);
    var r := TrimEnd(a);
    var i := |s| - |a|;
    TrimStartIsSuffix(s);
    TrimEndIsPrefix(a);
    assert s[i..i + |r|] == r;
    assert s[i + |r|..] == a[|r|..];
    assert Trim(s) == r;
    assert Framed(s, i, Trim(s));
  }

  /** Trimming adds no character the input lacks. */
  lemma TrimKeepsOut(s: string, c: char)
    requires c !in s
    ensures c !in Trim(s)
  {
    TrimIsFramed(s);
    var i :| 0 <= i <= |s| && Framed(s, i, Trim(s));
    assert Trim(s) == s[i..i + |Trim(s)|];
  }

  /** Trimming a string that is already trimmed gives it back unchanged;
      in particular `Trim` is idempotent. */
  lemma TrimmedIsFixpoint(s: string)
    requires IsTrimmed(s)
    ensures Trim(s) == s
  {
  }

  lemma TrimIdempotent(s: string)
    ensures Trim(Trim(s)) == Trim(s)
  {
    TrimmedIsFixpoint(Trim(s));
  }

  /** A string trims to nothing exactly when it is all whitespace. */
  lemma TrimEmptyIffAllSpace(s: string)
    ensures Trim(s) == [] <==> AllSpace(s)
  {
    var r := Trim(s);
    TrimIsFramed(s);
    var i :| 0 <= i <= |s| && Framed(s, i, r);
    if r == [] {
      assert s == s[..i] + s[i..];
      AllSpaceConcat(s[..i], s[i..]);
    } else {
      assert s[i] == r[0];
    }
  }

  lemma AllSpaceConcat(a: string, b: string)
    requires AllSpace(a) && AllSpace(b)
    ensures AllSpace(a + b)
  {
    forall k | 0 <= k < |a + b| ensures IsSpace((a + b)[k]) {
      if k < |a| { assert (a + b)[k] == a[k]; } else { assert (a + b)[k] == b[k - |a|]; }
    }
  }

  // ---------------------------------------------------------------------
  // split / join

  /** JavaScript's `s.split(sep)` for a one-character separator: the
      maximal separator-free pieces, empty ones included; `""` splits to
      `[""]`. */
  function Split(s: string, sep: char): (r: seq<string>)
    ensures |r| >= 1
    ensures forall k | 0 <= k < |r| :: sep !in r[k]
    decreases |s|
  {
    if s == [] then
      [[]]
    else
      var rest := Split(s[1..], sep);
      if s[0] == sep then [[]] + rest
      else [[s[0]] + rest[0]] + rest[1..]
  }

  /** `pieces.join(sep)`. */
  function Join(pieces: seq<string>, sep: char): string
    requires |pieces| >= 1
    decreases |pieces|
  {
    if |pieces| == 1 then pieces[0]
    else pieces[0] + [sep] + Join(pieces[1..], sep)
  }

  /** Joining the pieces of a split with the separator restores the input. */
  lemma {:induction false} JoinSplit(s: string, sep: char)
    ensures Join(Split(s, sep), sep) == s
    decreases |s|
  {
    if s != [] {
      var rest := Split(s[1..], sep);
      JoinSplit(s[1..], sep);
      if s[0] == sep {
        assert Split(s, sep) == [[]] + rest;
        assert ([[]] + rest)[1..] == rest;
      } else {
        var r := Split(s, sep);
        assert r == [[s[0]] + rest[0]] + rest[1..];
        if |rest| == 1 {
          assert r == [[s[0]] + rest[0]];
        } else {
          assert r[1..] == rest[1..];
          assert Join(rest, sep) == rest[0] + [sep] + Join(rest[1..], sep);
        }
      }
    }
  }

  /** Splitting `a + t` where `a` holds no separator glues `a` onto the
      first piece of `t`. */
  lemma {:induction false} SplitPrefix(a: string, t: string, sep: char)
    requires sep !in a
    ensures Split(a + t, sep) == [a + Split(t, sep)[0]] + Split(t, sep)[1..]
    decreases |a|
  {
    if a != [] {
      assert (a + t)[1..] == a[1..] + t;
      assert (a + t)[0] == a[0];
      SplitPrefix(a[1..], t, sep);
      assert [a[0]] + (a[1..] + Split(t, sep)[0]) == a + Split(t, sep)[0];
    } else {
      var r := Split(t, sep);
      assert a + t == t && a + r[0] == r[0];
      assert r == [r[0]] + r[1..];
    }
  }

  /** Splitting the join of separator-free pieces gives the pieces back. */
  lemma {:induction false} SplitJoin(pieces: seq<string>, sep: char)
    requires |pieces| >= 1
    requires forall k | 0 <= k < |pieces| :: sep !in pieces[k]
    ensures Split(Join(pieces, sep), sep) == pieces
    decreases |pieces|
  {
    var a := pieces[0];
    if |pieces| == 1 {
      SplitPrefix(a, [], sep);
      assert a + [] == a;
    } else {
      var b := Join(pieces[1..], sep);
      SplitJoin(pieces[1..], sep);
      assert Join(pieces, sep) == a + ([sep] + b);
      SplitPrefix(a, [sep] + b, sep);
      assert ([sep] + b)[1..] == b;
      assert Split([sep] + b, sep) == [[]] + Split(b, sep);
      assert a + [] == a;
      assert pieces == [a] + pieces[1..];
    }
  }

  // ---------------------------------------------------------------------
  // case-insensitive containment

  /** ASCII lower-casing of one character. */
  function Lower(c: char): char {
    if 'A' <= c <= 'Z' then (c as int + 32) as char else c
  }

  /** `toLowerCase` on ASCII letters: every `A`-`Z` becomes its lower-case
      letter, every other character is kept, and no upper-case ASCII letter
      remains. */
  function LowerCase(s: string): (r: string)
    ensures |r| == |s|
    ensures forall k | 0 <= k < |s| :: 'A' <= s[k] <= 'Z' ==> r[k] as int == s[k] as int + 32
    ensures forall k | 0 <= k < |s| :: !('A' <= s[k] <= 'Z') ==> r[k] == s[k]
    ensures forall k | 0 <= k < |r| :: !('A' <= r[k] <= 'Z')
  {
    seq(|s|, k requires 0 <= k < |s| => Lower(s[k]))
  }

  /** Lower-casing twice is lower-casing once, so a query that is already
      lower case matches the same titles. */
  lemma LowerCaseIdempotent(s: string)
    ensures LowerCase(LowerCase(s)) == LowerCase(s)
  {
  }

  predicate OccursAt(t: string, s: string, i: int) {
    0 <= i && i + |t| <= |s| && s[i..i + |t|] == t
  }

  /** JavaScript's `s.includes(t)`. */
  predicate Contains(s: string, t: string) {
    exists i | 0 <= i <= |s| :: OccursAt(t, s, i)
  }

  /** `s.toLowerCase().includes(t.toLowerCase())`. */
  predicate ContainsIgnoreCase(s: string, t: string) {
    Contains(LowerCase(s), LowerCase(t))
  }

  /** `includes` finds every infix, and never a string longer than the
      one searched. */
  lemma ContainsInfix(a: string, t: string, b: string)
    ensures Contains(a + t + b, t)
    ensures forall u | |u| > |a + t + b| :: !Contains(a + t + b, u)
  {
    var s := a + t + b;
    assert s[|a|..|a| + |t|] == t;
    assert OccursAt(t, s, |a|);
  }

  /** Lower-casing works character by character, so it keeps an infix in
      place. */
  lemma LowerCaseInfix(a: string, t: string, b: string)
    ensures LowerCase(a + t + b) == LowerCase(a) + LowerCase(t) + LowerCase(b)
  {
    var s := a + t + b;
    var l := LowerCase(a) + LowerCase(t) + LowerCase(b);
    forall k | 0 <= k < |s| ensures LowerCase(s)[k] == l[k] {
      if k < |a| {
        assert s[k] == a[k];
      } else if k < |a| + |t| {
        assert s[k] == t[k - |a|];
      } else {
        assert s[k] == b[k - |a| - |t|];
      }
    }
  }

  /** The case-insensitive test finds an infix whatever the case in which
      the query spells it. */
  lemma ContainsIgnoreCaseInfix(a: string, t: string, b: string, q: string)
    requires LowerCase(q) == LowerCase(t)
    ensures ContainsIgnoreCase(a + t + b, q)
  {
    LowerCaseInfix(a, t, b);
    ContainsInfix(LowerCase(a), LowerCase(t), LowerCase(b));
  }
}
