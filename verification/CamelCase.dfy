/** `camel_to_snake` and the names it can tell apart. */
module CamelCase {
  import opened PyText

  /** An underscore goes before every capital but the first character, and everything is lowered. */
  function SnakeFrom(s: string, start: bool): string {
    if s == "" then ""
    else (if IsUpper(s[0]) && !start then ['_', LowerChar(s[0])] else [LowerChar(s[0])]) + SnakeFrom(s[1..], false)
  }

  function CamelToSnake(name: string): string {
    SnakeFrom(name, true)
  }

  /** Undoes the conversion: an underscore and a small letter become a capital. */
  function SnakeToCamel(s: string): string {
    if s == "" then ""
    else if s[0] == '_' && |s| > 1 && IsLower(s[1]) then [s[1] - 32 as char] + SnakeToCamel(s[2..])
    else [s[0]] + SnakeToCamel(s[1..])
  }

  predicate NoCapitals(s: string) {
    forall i :: 0 <= i < |s| ==> !IsUpper(s[i])
  }

  lemma {:induction false} SnakeNoCapitals(s: string, start: bool)
    ensures NoCapitals(SnakeFrom(s, start))
  {
    if s != "" { SnakeNoCapitals(s[1..], false); }
  }

  lemma {:induction false} SnakeOfSmall(s: string, start: bool)
    requires NoCapitals(s)
    ensures SnakeFrom(s, start) == s
  {
    if s != "" { SnakeOfSmall(s[1..], false); }
  }

  /** Converting twice is converting once. */
  lemma SnakeIdempotent(name: string)
    ensures CamelToSnake(CamelToSnake(name)) == CamelToSnake(name)
  {
    SnakeNoCapitals(name, true);
    SnakeOfSmall(CamelToSnake(name), true);
  }

  /** The number of capitals. */
  function Capitals(s: string): nat {
    if s == "" then 0 else (if IsUpper(s[0]) then 1 else 0) + Capitals(s[1..])
  }

  lemma {:induction false} SnakeFromLength(s: string)
    ensures |SnakeFrom(s, false)| == |s| + Capitals(s)
  {
    if s != "" { SnakeFromLength(s[1..]); }
  }

  /** The name grows by the number of capitals after its first character. */
  lemma SnakeLength(name: string)
    ensures |CamelToSnake(name)| == |name| + if name == "" then 0 else Capitals(name[1..])
  {
    if name != "" { SnakeFromLength(name[1..]); }
  }

  /** An underscore right before a small letter. */
  predicate JointAt(s: string, i: int) {
    0 <= i < |s| - 1 && s[i] == '_' && IsLower(s[i + 1])
  }

  predicate NoSnakeJoint(s: string) {
    forall i :: 0 <= i < |s| - 1 ==> !JointAt(s, i)
  }

  lemma {:induction false} CamelOfSnake(s: string)
    requires NoSnakeJoint(s)
    ensures SnakeToCamel(SnakeFrom(s, false)) == s
  {
    if s != "" {
      var rest := SnakeFrom(s[1..], false);
      forall i | 0 <= i < |s[1..]| - 1 ensures !JointAt(s[1..], i) { assert !JointAt(s, i + 1); }
      CamelOfSnake(s[1..]);
      if IsUpper(s[0]) {
        assert SnakeFrom(s, false)[2..] == rest;
      } else {
        assert SnakeFrom(s, false) == [s[0]] + rest && SnakeFrom(s, false)[1..] == rest;
        if s[0] == '_' && |s| > 1 {
          assert !JointAt(s, 0);
          assert rest[0] == '_' || rest[0] == s[1];
        }
      }
    }
  }

  /** What comes back has no underscore before a small letter, nor a capital at its start. */
  lemma {:induction false} CamelNoJoint(s: string)
    ensures NoCapitals(s) ==> NoSnakeJoint(SnakeToCamel(s))
    ensures SnakeToCamel(s) == "" <==> s == ""
    ensures s != "" && !(s[0] == '_' && |s| > 1 && IsLower(s[1])) ==> SnakeToCamel(s)[0] == s[0]
  {
    if s == "" {
    } else if s[0] == '_' && |s| > 1 && IsLower(s[1]) {
      CamelNoJoint(s[2..]);
      NoJointCons(s[1] - 32 as char, SnakeToCamel(s[2..]));
    } else {
      CamelNoJoint(s[1..]);
      NoJointCons(s[0], SnakeToCamel(s[1..]));
    }
  }

  lemma NoJointCons(ch: char, r: string)
    requires ch == '_' && r != "" ==> !IsLower(r[0])
    ensures NoSnakeJoint(r) ==> NoSnakeJoint([ch] + r)
  {
    if NoSnakeJoint(r) {
      forall i | 0 <= i < |[ch] + r| - 1 ensures !JointAt([ch] + r, i) {
        if i > 0 { assert !JointAt(r, i - 1); }
      }
    }
  }

  /** The conversion can be undone exactly for names that start with no capital and have no joint. */
  lemma SnakeInvertibleIff(name: string)
    ensures SnakeToCamel(CamelToSnake(name)) == name <==> (name == "" || !IsUpper(name[0])) && NoSnakeJoint(name)
  {
    assert name != "" ==> CamelToSnake(name)[0] == LowerChar(name[0]);
    if (name == "" || !IsUpper(name[0])) && NoSnakeJoint(name) {
      CamelOfSnake(name);
      assert CamelToSnake(name) == SnakeFrom(name, false);
    } else if SnakeToCamel(CamelToSnake(name)) == name {
      SnakeNoCapitals(name, true);
      CamelNoJoint(CamelToSnake(name));
    }
  }

  /** So no two such names are converted to the same one. */
  lemma SnakeInjective(a: string, b: string)
    requires (a == "" || !IsUpper(a[0])) && NoSnakeJoint(a)
    requires (b == "" || !IsUpper(b[0])) && NoSnakeJoint(b)
    requires CamelToSnake(a) == CamelToSnake(b)
    ensures a == b
  {
    SnakeInvertibleIff(a);
    SnakeInvertibleIff(b);
  }
}
