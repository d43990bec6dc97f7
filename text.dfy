/** The string operations the client relies on: JavaScript's `trim`,
    `toLowerCase` (restricted to ASCII letters), `includes` on strings, and
    the truthiness tests `||` / `??` on `string | null` values. */
module Text {
  import opened Wrappers

  /** The code points JavaScript's `String.prototype.trim` removes: the
      ECMAScript WhiteSpace and LineTerminator characters. */
  predicate IsSpace(c: char) {
    var n := c as int;
    (0x09 <= n <= 0x0D) || n == 0x20 || n == 0xA0 || n == 0x1680
    || (0x2000 <= n <= 0x200A) || n == 0x2028 || n == 0x2029
    || n == 0x202F || n == 0x205F || n == 0x3000 || n == 0xFEFF
  }

  predicate AllSpace(s: string) {
    forall i :: 0 <= i < |s| ==> IsSpace(s[i])
  }

  /** Neither starts nor ends with white space: what `trim` returns. */
  predicate IsTrimmed(s: string) {
    s == [] || (!IsSpace(s[0]) && !IsSpace(s[|s| - 1]))
  }

  /** Drops the leading white space: the result is a suffix of `s`, does not
      start with white space, and everything dropped is white space. */
  function TrimStart(s: string): (r: string)
    ensures |r| <= |s| && r == s[|s| - |r|..]
    ensures r == [] || !IsSpace(r[0])
    ensures forall i :: 0 <= i < |s| - |r| ==> IsSpace(s[i])
  {
    if s != [] && IsSpace(s[0]) then TrimStart(s[1..]) else s
  }

  /** Drops the trailing white space: the result is a prefix of `s`, does not
      end with white space, and everything dropped is white space. */
  function TrimEnd(s: string): (r: string)
    ensures |r| <= |s| && r == s[..|r|]
    ensures r == [] || !IsSpace(r[|r| - 1])
    ensures forall i :: |r| <= i < |s| ==> IsSpace(s[i])
  {
    if s != [] && IsSpace(s[|s| - 1]) then TrimEnd(s[..|s| - 1]) else s
  }

  /** `s.trim()`. The result is trimmed, is empty exactly when `s` is all
      white space, and leaves an already trimmed string alone (so trimming
      twice is trimming once). */
  function Trim(s: string): (r: string)
    ensures |r| <= |s|
    ensures IsTrimmed(r)
    ensures r == [] <==> AllSpace(s)
    ensures IsTrimmed(s) ==> r == s
  {
    var t := TrimStart(s);
    var r := TrimEnd(t);
    assert r != [] ==> r[0] == t[0];
    assert AllSpace(s) ==> t == [] by {
      if t != [] { assert t[0] == s[|s| - |t|]; }
    }
    assert t == [] ==> AllSpace(s);
    assert IsTrimmed(s) && s != [] ==> t == s;
    r
  }

  /** Trimming is idempotent. */
  lemma TrimTwice(s: string)
    ensures Trim(Trim(s)) == Trim(s)
  {
  }

  /** `s.trim() || null`: the trimmed text, or null when it is blank. */
  function TrimOrNull(s: string): (r: Option<string>)
    ensures r.None? <==> AllSpace(s)
    ensures r.Some? ==> r.value == Trim(s) && r.value != [] && IsTrimmed(r.value)
  {
    var t := Trim(s);
    if t == [] then None else Some(t)
  }

  /** `toLowerCase` on one character; only ASCII letters are folded. */
  function LowerChar(c: char): char {
    if 'A' <= c <= 'Z' then (c as int + 32) as char else c
  }

  /** `s.toLowerCase()`, restricted to ASCII letters. */
  function Lower(s: string): (r: string)
    ensures |r| == |s|
    ensures forall i :: 0 <= i < |s| ==> r[i] == LowerChar(s[i])
  {
    seq(|s|, i requires 0 <= i < |s| => LowerChar(s[i]))
  }

  /** `s.includes(t)`: `t` occurs in `s` as a contiguous piece. */
  predicate Contains(s: string, t: string) {
    t <= s || (s != [] && Contains(s[1..], t))
  }

  /** JavaScript truthiness of a `string | null` value. */
  predicate Truthy(o: Option<string>) {
    o.Some? && o.value != []
  }

  /** `a || b` on `string | null` values: `a` unless it is null or empty. */
  function OrElse(a: Option<string>, b: Option<string>): Option<string> {
    if Truthy(a) then a else b
  }

  /** `a ?? b` on `string | null` values: `a` unless it is null. */
  function Coalesce(a: Option<string>, b: Option<string>): Option<string> {
    if a.Some? then a else b
  }

  /** Joining a trimmed non-empty word and a trimmed word with a space and
      trimming the result gives the two words, or the first alone when the
      second is empty. */
  lemma TrimJoin(a: string, b: string)
    requires a != [] && IsTrimmed(a) && IsTrimmed(b)
    ensures Trim(a + " " + b) == if b == [] then a else a + " " + b
  {
    var s := a + " " + b;
    if b == [] {
      assert s == a + " ";
      assert TrimStart(s) == s;
      assert s[..|s| - 1] == a;
      assert TrimEnd(s) == TrimEnd(a);
    } else {
      assert s[0] == a[0] && s[|s| - 1] == b[|b| - 1];
    }
  }

  /** Dropping one white-space character at either end leaves a string
      that is all white space exactly when the whole one is. */
  lemma AllSpaceEnds(x: string)
    requires x != []
    ensures IsSpace(x[0]) ==> (AllSpace(x) <==> AllSpace(x[1..]))
    ensures IsSpace(x[|x| - 1]) ==> (AllSpace(x) <==> AllSpace(x[..|x| - 1]))
  {
    assert forall i :: 0 < i < |x| ==> x[i] == x[1..][i - 1];
    assert forall i :: 0 <= i < |x| - 1 ==> x[i] == x[..|x| - 1][i];
  }

  /** White space at the front of `x + y`: when `x` is all white space the
      trim reaches into `y`; otherwise it stops inside `x`. */
  lemma {:induction false} TrimStartAppend(x: string, y: string)
    ensures AllSpace(x) ==> TrimStart(x + y) == TrimStart(y)
    ensures !AllSpace(x) ==> TrimStart(x + y) == TrimStart(x) + y
    decreases |x|
  {
    if x == [] {
      assert x + y == y;
    } else {
      var s := x + y;
      assert s != [] && s[0] == x[0] && s[1..] == x[1..] + y;
      if IsSpace(x[0]) {
        TrimStartAppend(x[1..], y);
        AllSpaceEnds(x);
        assert TrimStart(s) == TrimStart(x[1..] + y);
        assert TrimStart(x) == TrimStart(x[1..]);
      } else {
        assert TrimStart(s) == s && TrimStart(x) == x;
      }
    }
  }

  /** White space at the end of `x + y`: when `y` is all white space the
      trim reaches into `x`; otherwise it stops inside `y`. */
  lemma {:induction false} TrimEndAppend(x: string, y: string)
    ensures AllSpace(y) ==> TrimEnd(x + y) == TrimEnd(x)
    ensures !AllSpace(y) ==> TrimEnd(x + y) == x + TrimEnd(y)
    decreases |y|
  {
    if y == [] {
      assert x + y == x;
    } else {
      var s := x + y;
      var y' := y[..|y| - 1];
      assert s != [] && s[|s| - 1] == y[|y| - 1] && s[..|s| - 1] == x + y';
      if IsSpace(y[|y| - 1]) {
        TrimEndAppend(x, y');
        AllSpaceEnds(y);
        assert TrimEnd(s) == TrimEnd(x + y');
        assert TrimEnd(y) == TrimEnd(y');
      } else {
        assert TrimEnd(s) == s && TrimEnd(y) == y;
      }
    }
  }

  /** The words of `a` and `b` separated by one space, outer white space
      dropped: `a` trimmed when `b` is blank, `b` trimmed when `a` is,
      otherwise `a` without its leading and `b` without its trailing white
      space around a single space. */
  function JoinWords(a: string, b: string): string {
    if AllSpace(b) then Trim(a)
    else if AllSpace(a) then Trim(b)
    else TrimStart(a) + " " + TrimEnd(b)
  }

  /** `trim` is the leading trim followed by the trailing one. */
  lemma TrimIs(s: string)
    ensures Trim(s) == TrimEnd(TrimStart(s))
  {
  }

  /** A space in front changes neither blankness nor the leading trim. */
  lemma SpaceInFront(b: string)
    ensures AllSpace(" " + b) <==> AllSpace(b)
    ensures TrimStart(" " + b) == TrimStart(b)
  {
    var s := " " + b;
    assert s[0] == ' ' && s[1..] == b;
    AllSpaceEnds(s);
  }

  /** The leading trim of `a + " " + b`: it reaches into `b` when `a` is
      blank, otherwise it stops inside `a`. */
  lemma TrimStartJoin(a: string, b: string)
    ensures AllSpace(a) ==> TrimStart(a + " " + b) == TrimStart(b)
    ensures !AllSpace(a) ==> TrimStart(a + " " + b) == TrimStart(a) + (" " + b)
  {
    assert a + " " + b == a + (" " + b);
    TrimStartAppend(a, " " + b);
    SpaceInFront(b);
  }

  /** Blank `a`: only `b`'s words remain. */
  lemma TrimJoinBlankFront(a: string, b: string)
    requires AllSpace(a)
    ensures Trim(a + " " + b) == Trim(b)
  {
    TrimIs(a + " " + b);
    TrimIs(b);
    TrimStartJoin(a, b);
  }

  /** Blank `b` after a non-blank `a`: only `a`'s words remain. */
  lemma TrimJoinBlankBack(a: string, b: string)
    requires !AllSpace(a) && AllSpace(b)
    ensures Trim(a + " " + b) == Trim(a)
  {
    TrimIs(a + " " + b);
    TrimIs(a);
    TrimStartJoin(a, b);
    SpaceInFront(b);
    TrimEndAppend(TrimStart(a), " " + b);
  }

  lemma ConcatAssoc(x: string, y: string, z: string)
    ensures x + (y + z) == x + y + z
  {
  }

  /** The trailing trim of a non-blank string behind a space keeps the
      space. */
  lemma TrimEndBehindSpace(b: string)
    requires !AllSpace(b)
    ensures TrimEnd(" " + b) == " " + TrimEnd(b)
  {
    TrimEndAppend(" ", b);
  }

  /** The trailing trim of `t + " " + b` for a non-blank `b` stops
      inside `b`. */
  lemma TrimEndJoin(t: string, b: string)
    requires !AllSpace(b)
    ensures TrimEnd(t + (" " + b)) == t + TrimEnd(" " + b)
  {
    SpaceInFront(b);
    TrimEndAppend(t, " " + b);
  }

  /** Neither blank: the inner white space stays, the outer goes. */
  lemma TrimJoinNeitherBlank(a: string, b: string)
    requires !AllSpace(a) && !AllSpace(b)
    ensures Trim(a + " " + b) == TrimStart(a) + " " + TrimEnd(b)
  {
    var t := TrimStart(a);
    calc {
      Trim(a + " " + b);
      { TrimIs(a + " " + b); }
      TrimEnd(TrimStart(a + " " + b));
      { TrimStartJoin(a, b); }
      TrimEnd(t + (" " + b));
      { TrimEndJoin(t, b); }
      t + TrimEnd(" " + b);
      { TrimEndBehindSpace(b); }
      t + (" " + TrimEnd(b));
      { ConcatAssoc(t, " ", TrimEnd(b)); }
      t + " " + TrimEnd(b);
    }
  }

  /** `${a} ${b}`.trim() is `JoinWords(a, b)`. */
  lemma TrimJoinWords(a: string, b: string)
    ensures Trim(a + " " + b) == JoinWords(a, b)
  {
    if AllSpace(a) {
      TrimJoinBlankFront(a, b);
    } else if AllSpace(b) {
      TrimJoinBlankBack(a, b);
    } else {
      TrimJoinNeitherBlank(a, b);
    }
  }
}
