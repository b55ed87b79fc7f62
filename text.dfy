/**
 * The few Python string operations the audit core relies on, written out:
 * str.strip(), str.split(), str.split('\n'), str.lower(), the `in` test on
 * strings, str.join(), str(int) and the prefix slice s[:n].
 */
module Text {

  /** Python's str.isspace() for one character. */
  predicate IsSpace(c: char) {
    || c == ' ' || c == '\t' || c == '\n' || c == '\r' || c == '\U{000B}' || c == '\U{000C}'
    || ('\U{001C}' <= c <= '\U{001F}') || c == '\U{0085}' || c == '\U{00A0}' || c == '\U{1680}'
    || ('\U{2000}' <= c <= '\U{200A}') || c == '\U{2028}' || c == '\U{2029}' || c == '\U{202F}'
    || c == '\U{205F}' || c == '\U{3000}'
  }

  predicate AllSpace(s: string) {
    forall i :: 0 <= i < |s| ==> IsSpace(s[i])
  }

  /** s.lstrip(): drops the leading whitespace and nothing else. */
  function TrimLeft(s: string): string {
    if s != [] && IsSpace(s[0]) then TrimLeft(s[1..]) else s
  }

  lemma AllSpaceConcat(a: string, b: string)
    requires AllSpace(a) && AllSpace(b)
    ensures AllSpace(a + b)
  {
    forall i | 0 <= i < |a + b|
      ensures IsSpace((a + b)[i])
    {
      if i < |a| {
        assert (a + b)[i] == a[i];
      } else {
        assert (a + b)[i] == b[i - |a|];
      }
    }
  }

  lemma {:induction false} TrimLeftSpec(s: string)
    ensures var r := TrimLeft(s);
      && |r| <= |s| && r == s[|s| - |r|..]
      && (r == [] || !IsSpace(r[0]))
      && AllSpace(s[..|s| - |r|])
  {
    if s != [] && IsSpace(s[0]) {
      var tail := s[1..];
      var r := TrimLeft(tail);
      assert TrimLeft(s) == r;
      TrimLeftSpec(tail);
      assert r == s[|s| - |r|..] by {
        assert tail[|tail| - |r|..] == s[|s| - |r|..];
      }
      assert s[..|s| - |r|] == [s[0]] + tail[..|tail| - |r|];
      AllSpaceConcat([s[0]], tail[..|tail| - |r|]);
    } else {
      assert TrimLeft(s) == s;
      assert s[..0] == [];
      assert s[0..] == s;
    }
  }

  /** s.rstrip(): drops the trailing whitespace and nothing else. */
  function TrimRight(s: string): string {
    if s != [] && IsSpace(s[|s| - 1]) then TrimRight(s[..|s| - 1]) else s
  }

  lemma {:induction false} TrimRightSpec(s: string)
    ensures var r := TrimRight(s);
      && |r| <= |s| && r == s[..|r|]
      && (r == [] || !IsSpace(r[|r| - 1]))
      && AllSpace(s[|r|..])
  {
    if s != [] && IsSpace(s[|s| - 1]) {
      var init := s[..|s| - 1];
      var r := TrimRight(init);
      assert TrimRight(s) == r;
      TrimRightSpec(init);
      assert r == s[..|r|] by {
        assert init[..|r|] == s[..|r|];
      }
      assert s[|r|..] == init[|r|..] + [s[|s| - 1]];
      AllSpaceConcat(init[|r|..], [s[|s| - 1]]);
    } else {
      assert TrimRight(s) == s;
      assert s[|s|..] == [];
      assert s[..|s|] == s;
    }
  }

  /** s.strip(): empty exactly when s is blank, otherwise framed by non-blanks. */
  function Strip(s: string): string {
    TrimRight(TrimLeft(s))
  }

  lemma StripSpec(s: string)
    ensures var r := Strip(s);
      && (r == [] <==> AllSpace(s))
      && (r != [] ==> !IsSpace(r[0]) && !IsSpace(r[|r| - 1]))
  {
    var t := TrimLeft(s);
    var r := TrimRight(t);
    assert Strip(s) == r;
    TrimLeftSpec(s);
    TrimRightSpec(t);
    var pre := s[..|s| - |t|];
    assert s == pre + t;
    if r == [] {
      assert t[0..] == t;
      AllSpaceConcat(pre, t);
    } else {
      assert r[0] == t[0];
      assert !AllSpace(s) by {
        assert t[0] == s[|s| - |t|];
      }
    }
  }

  /** The leading run of non-whitespace characters of s. */
  function FirstWord(s: string): string {
    if s == [] || IsSpace(s[0]) then [] else [s[0]] + FirstWord(s[1..])
  }

  lemma {:induction false} FirstWordSpec(s: string)
    ensures var w := FirstWord(s);
      && |w| <= |s| && w == s[..|w|]
      && (s != [] && !IsSpace(s[0]) ==> IsWord(w))
  {
    if s != [] && !IsSpace(s[0]) {
      FirstWordSpec(s[1..]);
    }
  }

  predicate IsWord(w: string) {
    w != [] && forall i :: 0 <= i < |w| ==> !IsSpace(w[i])
  }

  /** s.split(): the maximal runs of non-whitespace characters, in order. */
  function Words(s: string): (ws: seq<string>)
    decreases |s|
  {
    var t := TrimLeft(s);
    if t == [] then []
    else
      var w := FirstWord(t);
      TrimLeftSpec(s);
      FirstWordSpec(t);
      [w] + Words(t[|w|..])
  }

  /** Every field of s.split() is non-empty and holds no whitespace. */
  lemma {:induction false} WordsAreWords(s: string)
    ensures forall k :: 0 <= k < |Words(s)| ==> IsWord(Words(s)[k])
    decreases |s|
  {
    var t := TrimLeft(s);
    if t != [] {
      TrimLeftSpec(s);
      FirstWordSpec(t);
      var w := FirstWord(t);
      WordsAreWords(t[|w|..]);
    }
  }

  lemma {:induction false} WordsOfTrimLeft(s: string)
    ensures Words(TrimLeft(s)) == Words(s)
  {
    var t := TrimLeft(s);
    TrimLeftSpec(s);
    assert TrimLeft(t) == t;
  }

  lemma {:induction false} TrimLeftAppendSpaces(s: string, sp: string)
    requires AllSpace(sp)
    ensures TrimLeft(s) == [] ==> TrimLeft(s + sp) == []
    ensures TrimLeft(s) != [] ==> TrimLeft(s + sp) == TrimLeft(s) + sp
    decreases |s| + |sp|
  {
    if s == [] {
      assert s + sp == sp;
      if sp != [] {
        assert IsSpace(sp[0]);
        assert [] + sp[1..] == sp[1..];
        TrimLeftAppendSpaces([], sp[1..]);
      }
    } else if IsSpace(s[0]) {
      assert (s + sp)[1..] == s[1..] + sp;
      TrimLeftAppendSpaces(s[1..], sp);
    } else {
      assert (s + sp)[0] == s[0];
    }
  }

  lemma {:induction false} FirstWordAppendSpaces(s: string, sp: string)
    requires AllSpace(sp)
    ensures FirstWord(s + sp) == FirstWord(s)
    decreases |s|
  {
    if s == [] {
      assert s + sp == sp;
    } else if !IsSpace(s[0]) {
      assert (s + sp)[1..] == s[1..] + sp;
      FirstWordAppendSpaces(s[1..], sp);
    }
  }

  /** Trailing whitespace never changes the words of a string. */
  lemma {:induction false} WordsAppendSpaces(s: string, sp: string)
    requires AllSpace(sp)
    ensures Words(s + sp) == Words(s)
    decreases |s|
  {
    var t := TrimLeft(s);
    TrimLeftSpec(s);
    TrimLeftAppendSpaces(s, sp);
    if t != [] {
      var w := FirstWord(t);
      FirstWordSpec(t);
      FirstWordAppendSpaces(t, sp);
      assert TrimLeft(s + sp) == t + sp;
      assert (t + sp)[|w|..] == t[|w|..] + sp;
      WordsAppendSpaces(t[|w|..], sp);
    }
  }

  lemma SplitAt(t: string, n: nat)
    requires n <= |t|
    ensures t == t[..n] + t[n..]
  {
  }

  lemma {:induction false} WordsOfTrimRight(t: string)
    ensures Words(TrimRight(t)) == Words(t)
  {
    var r := TrimRight(t);
    TrimRightSpec(t);
    var sp := t[|r|..];
    SplitAt(t, |r|);
    WordsAppendSpaces(r, sp);
  }

  /** Python: s.strip().split() == s.split(). */
  lemma {:induction false} WordsOfStrip(s: string)
    ensures Words(Strip(s)) == Words(s)
  {
    WordsOfTrimRight(TrimLeft(s));
    WordsOfTrimLeft(s);
  }

  /** Python's str.lower(), restricted to ASCII letters. */
  function LowerChar(c: char): char {
    if 'A' <= c <= 'Z' then (c as int + 32) as char else c
  }

  function Lower(s: string): (r: string)
    ensures |r| == |s|
    ensures forall i :: 0 <= i < |s| ==> r[i] == LowerChar(s[i])
  {
    seq(|s|, i requires 0 <= i < |s| => LowerChar(s[i]))
  }

  predicate HasNoUpper(s: string) {
    forall i :: 0 <= i < |s| ==> !('A' <= s[i] <= 'Z')
  }

  lemma LowerIsLower(s: string)
    ensures HasNoUpper(Lower(s))
    ensures Lower(Lower(s)) == Lower(s)
  {
  }

  /** s starts with the prefix p (str.startswith). */
  predicate StartsWith(s: string, p: string) {
    |p| <= |s| && s[..|p|] == p
  }

  /** Python's `sub in s` on strings. */
  predicate Contains(s: string, sub: string)
    decreases |s|
  {
    StartsWith(s, sub) || (s != [] && Contains(s[1..], sub))
  }

  /** sep.join(parts). */
  function Join(parts: seq<string>, sep: string): string {
    if parts == [] then []
    else if |parts| == 1 then parts[0]
    else Join(parts[..|parts| - 1], sep) + sep + parts[|parts| - 1]
  }

  /** s.split(c) for a single-character separator: never empty, keeps empty fields. */
  function SplitOn(s: string, c: char): (parts: seq<string>)
    ensures |parts| >= 1
    ensures forall k :: 0 <= k < |parts| ==> c !in parts[k]
  {
    if s == [] then [[]]
    else
      var rest := SplitOn(s[..|s| - 1], c);
      var last := s[|s| - 1];
      if last == c then rest + [[]]
      else rest[..|rest| - 1] + [rest[|rest| - 1] + [last]]
  }

  /** Extending the last part extends the joined string. */
  lemma JoinExtendLast(parts: seq<string>, sep: string, x: string)
    requires parts != []
    ensures Join(parts[..|parts| - 1] + [parts[|parts| - 1] + x], sep) == Join(parts, sep) + x
  {
    var ps := parts[..|parts| - 1] + [parts[|parts| - 1] + x];
    assert ps[..|ps| - 1] == parts[..|parts| - 1];
  }

  /** Adding an empty last part adds one separator. */
  lemma JoinAddEmpty(parts: seq<string>, sep: string)
    requires parts != []
    ensures Join(parts + [[]], sep) == Join(parts, sep) + sep
  {
    var ps := parts + [[]];
    assert ps[..|ps| - 1] == parts;
  }

  /** Splitting on c and joining with c gives the string back. */
  lemma {:induction false} JoinSplitOn(s: string, c: char)
    ensures Join(SplitOn(s, c), [c]) == s
  {
    if s != [] {
      var init := s[..|s| - 1];
      var last := s[|s| - 1];
      var rest := SplitOn(init, c);
      JoinSplitOn(init, c);
      assert s == init + [last];
      if last == c {
        assert SplitOn(s, c) == rest + [[]];
        JoinAddEmpty(rest, [c]);
      } else {
        assert SplitOn(s, c) == rest[..|rest| - 1] + [rest[|rest| - 1] + [last]];
        JoinExtendLast(rest, [c], [last]);
      }
    }
  }

  function DigitChar(d: nat): char
    requires d < 10
  {
    "0123456789"[d]
  }

  /** str(n) for a natural number n. */
  function NatToString(n: nat): (r: string)
    ensures r != []
    ensures forall i :: 0 <= i < |r| ==> '0' <= r[i] <= '9'
  {
    if n < 10 then [DigitChar(n)] else NatToString(n / 10) + [DigitChar(n % 10)]
  }

  /** Python's s[:n] for any integer n: a negative n counts from the end. */
  function PrefixUpTo(s: string, n: int): (r: string)
    ensures 0 <= n <= |s| ==> r == s[..n]
    ensures n > |s| ==> r == s
    ensures n < 0 ==> |r| == if -n <= |s| then |s| + n else 0
  {
    if n >= 0 then (if n <= |s| then s[..n] else s)
    else if -n <= |s| then s[..|s| + n]
    else []
  }
}
