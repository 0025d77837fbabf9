/** The Python string operations the scripts use: strip, split, lower. */
module PyText {
  import opened Prelude

  /** The characters `str.strip()` removes. */
  predicate IsSpace(ch: char) {
    var n := ch as int;
    || 0x09 <= n <= 0x0D || 0x1C <= n <= 0x20 || n == 0x85 || n == 0xA0 || n == 0x1680
    || 0x2000 <= n <= 0x200A || n == 0x2028 || n == 0x2029 || n == 0x202F || n == 0x205F || n == 0x3000
  }

  /** The codes of these characters. */
  lemma SpaceCodes(ch: char)
    ensures IsSpace(ch) <==>
            ch as int in {9, 10, 11, 12, 13, 28, 29, 30, 31, 32, 133, 160, 5760, 8192, 8193, 8194, 8195, 8196,
                          8197, 8198, 8199, 8200, 8201, 8202, 8232, 8233, 8239, 8287, 12288}
  {
  }

  function StripLeft(s: string, p: char -> bool): (r: string)
    ensures r == "" || !p(r[0])
  {
    if s == "" || !p(s[0]) then s else StripLeft(s[1..], p)
  }

  function StripRight(s: string, p: char -> bool): (r: string)
    ensures r == "" || !p(r[|r| - 1])
    ensures r <= s
  {
    if s == "" || !p(s[|s| - 1]) then s else StripRight(s[..|s| - 1], p)
  }

  /** `s.strip(...)` */
  function Strip(s: string, p: char -> bool): string {
    StripRight(StripLeft(s, p), p)
  }

  /** Nothing to strip. */
  predicate Bare(s: string, p: char -> bool) {
    s == "" || (!p(s[0]) && !p(s[|s| - 1]))
  }

  /** Stripping on the left takes off a run of strippable characters. */
  lemma {:induction false} StripLeftSplit(s: string, p: char -> bool) returns (a: string)
    ensures s == a + StripLeft(s, p) && forall i :: 0 <= i < |a| ==> p(a[i])
  {
    if s == "" || !p(s[0]) {
      a := "";
    } else {
      var rest := StripLeftSplit(s[1..], p);
      a := [s[0]] + rest;
    }
  }

  /** Stripping on the right takes off a run of strippable characters. */
  lemma {:induction false} StripRightSplit(s: string, p: char -> bool) returns (b: string)
    ensures s == StripRight(s, p) + b && forall i :: 0 <= i < |b| ==> p(b[i])
  {
    if s == "" || !p(s[|s| - 1]) {
      b := "";
    } else {
      var rest := StripRightSplit(s[..|s| - 1], p);
      b := rest + [s[|s| - 1]];
    }
  }

  lemma StripBare(s: string, p: char -> bool)
    ensures Bare(Strip(s, p), p)
    ensures Bare(s, p) ==> Strip(s, p) == s
    ensures forall ch :: ch in Strip(s, p) ==> ch in s
  {
    var l := StripLeft(s, p);
    var a := StripLeftSplit(s, p);
    if Strip(s, p) != "" {
      assert Strip(s, p)[0] == l[0];
    }
  }

  lemma {:induction false} StripLeftOf(a: string, t: string, p: char -> bool)
    requires (forall i :: 0 <= i < |a| ==> p(a[i])) && (t == "" || !p(t[0]))
    ensures StripLeft(a + t, p) == t
  {
    if a == "" {
      assert a + t == t;
    } else {
      StripLeftOf(a[1..], t, p);
      assert (a + t)[1..] == a[1..] + t;
    }
  }

  lemma {:induction false} StripRightOf(t: string, b: string, p: char -> bool)
    requires (forall i :: 0 <= i < |b| ==> p(b[i])) && (t == "" || !p(t[|t| - 1]))
    ensures StripRight(t + b, p) == t
  {
    if b == "" {
      assert t + b == t;
    } else {
      StripRightOf(t, b[..|b| - 1], p);
      assert (t + b)[..|t + b| - 1] == t + b[..|b| - 1];
    }
  }

  /** Stripping undoes padding with strippable characters. */
  lemma StripPadded(a: string, s: string, b: string, p: char -> bool)
    requires Bare(s, p) && (forall i :: 0 <= i < |a| ==> p(a[i])) && (forall i :: 0 <= i < |b| ==> p(b[i]))
    ensures Strip(a + s + b, p) == s
  {
    if s == "" {
      assert a + s + b == (a + b) + "";
      StripLeftOf(a + b, "", p);
    } else {
      assert a + s + b == a + (s + b);
      StripLeftOf(a, s + b, p);
      StripRightOf(s, b, p);
    }
  }

  function Trim(s: string): string {
    Strip(s, IsSpace)
  }

  /** The text before and after the first `ch`. */
  function SplitOnce(s: string, ch: char): (r: Option<(string, string)>)
    ensures r.None? <==> ch !in s
    ensures r.Some? ==> ch !in r.value.0 && s == r.value.0 + [ch] + r.value.1
  {
    if s == "" then None
    else if s[0] == ch then Some(("", s[1..]))
    else
      var rest := SplitOnce(s[1..], ch);
      if rest.None? then None else Some(([s[0]] + rest.value.0, rest.value.1))
  }

  lemma {:induction false} SplitOnceOf(a: string, ch: char, b: string)
    requires ch !in a
    ensures SplitOnce(a + [ch] + b, ch) == Some((a, b))
  {
    var s := a + [ch] + b;
    if a != "" {
      assert s[1..] == a[1..] + [ch] + b;
      SplitOnceOf(a[1..], ch, b);
      assert a == [a[0]] + a[1..];
    }
  }

  /** `s.split(ch)`: one piece more than there are separators. */
  function Split(s: string, ch: char): (r: seq<string>)
    ensures r != [] && forall i :: 0 <= i < |r| ==> ch !in r[i]
    decreases |s|
  {
    var first := SplitOnce(s, ch);
    if first.None? then [s] else [first.value.0] + Split(first.value.1, ch)
  }

  function Join(pieces: seq<string>, ch: char): string {
    if pieces == [] then "" else if |pieces| == 1 then pieces[0] else pieces[0] + [ch] + Join(pieces[1..], ch)
  }

  lemma {:induction false} SplitJoin(pieces: seq<string>, ch: char)
    requires pieces != [] && forall i :: 0 <= i < |pieces| ==> ch !in pieces[i]
    ensures Split(Join(pieces, ch), ch) == pieces
  {
    if |pieces| > 1 {
      SplitOnceOf(pieces[0], ch, Join(pieces[1..], ch));
      SplitJoin(pieces[1..], ch);
    }
  }

  lemma {:induction false} JoinChars(pieces: seq<string>, sep: char, ch: char)
    requires ch != sep && forall i :: 0 <= i < |pieces| ==> ch !in pieces[i]
    ensures ch !in Join(pieces, sep)
  {
    if |pieces| > 1 { JoinChars(pieces[1..], sep, ch); }
  }

  // -----------------------------------------------------------------------------------------------
  // Searching, and the case of ASCII letters
  // -----------------------------------------------------------------------------------------------

  /** The text occurs in the string. */
  predicate Contains(s: string, text: string) {
    exists k :: 0 <= k <= |s| && text <= s[k..]
  }

  predicate IsUpper(ch: char) {
    'A' <= ch <= 'Z'
  }

  predicate IsLower(ch: char) {
    'a' <= ch <= 'z'
  }

  function LowerChar(ch: char): char {
    if IsUpper(ch) then ch + 32 as char else ch
  }

  function UpperChar(ch: char): char {
    if IsLower(ch) then ch - 32 as char else ch
  }

  function Upper(s: string): string {
    seq(|s|, i requires 0 <= i < |s| => UpperChar(s[i]))
  }

  function Lower(s: string): (r: string)
    ensures |r| == |s| && forall i :: 0 <= i < |r| ==> r[i] == LowerChar(s[i])
  {
    seq(|s|, i requires 0 <= i < |s| => LowerChar(s[i]))
  }

  lemma LowerSpace(s: string, i: nat)
    requires i < |s|
    ensures IsSpace(Lower(s)[i]) <==> IsSpace(s[i])
  {
  }

  lemma LowerConcat(a: string, b: string)
    ensures Lower(a + b) == Lower(a) + Lower(b)
  {
  }

  lemma StripLeftLower(s: string)
    ensures StripLeft(Lower(s), IsSpace) == Lower(StripLeft(s, IsSpace))
  {
    var a := StripLeftSplit(s, IsSpace);
    var t := StripLeft(s, IsSpace);
    forall i | 0 <= i < |a| ensures IsSpace(Lower(a)[i]) { LowerSpace(a, i); }
    if t != "" { LowerSpace(t, 0); }
    LowerConcat(a, t);
    StripLeftOf(Lower(a), Lower(t), IsSpace);
  }

  lemma StripRightLower(s: string)
    ensures StripRight(Lower(s), IsSpace) == Lower(StripRight(s, IsSpace))
  {
    var t := StripRight(s, IsSpace);
    var b := StripRightSplit(s, IsSpace);
    forall i | 0 <= i < |b| ensures IsSpace(Lower(b)[i]) { LowerSpace(b, i); }
    if t != "" { LowerSpace(t, |t| - 1); }
    LowerConcat(t, b);
    StripRightOf(Lower(t), Lower(b), IsSpace);
  }

  /** Trimming and lowering may be done in either order. */
  lemma TrimLower(s: string)
    ensures Trim(Lower(s)) == Lower(Trim(s))
  {
    StripLeftLower(s);
    StripRightLower(StripLeft(s, IsSpace));
  }
}
