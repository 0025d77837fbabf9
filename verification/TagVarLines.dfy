/**
  The override lines that `list-tag-vars` prints, and what Ansible makes of such a line: a grammar that reads any
  line of that kind, whatever names stand in it.
*/
module TagVarLines {
  import opened Prelude
  import opened PyText
  import opened ParentSearch
  import opened KollaTags

  /** `<name>_tag` is the tag stored under `key`, or else the value of `<fallback>_tag`. */
  datatype TagVar = TagVar(name: Name, key: Name, fallback: Option<Name>)

  /** What is printed after the lookup. */
  function Default(v: TagVar): string {
    if v.fallback.None? then "" else " | default(" + v.fallback.value + "_tag)"
  }

  /** The line that defines the variable. */
  function PrintLine(v: TagVar): string {
    v.name + "_tag: \"{{ kolla_image_tags['" + v.key + "'][kolla_base_distro_and_version]" + Default(v) + " }}\""
  }

  // -----------------------------------------------------------------------------------------------
  // Reading a line
  // -----------------------------------------------------------------------------------------------

  /** `<variable>: "{{ <dictionary>['<key>'][<index>] }}"`, perhaps with `| default(<fallback>)`. */
  datatype Line = Line(variable: string, dictionary: string, key: string, index: string, fallback: Option<string>)

  /** The text before the first `ch`, and the text after it and what must follow it. */
  function Between(s: string, ch: char, opening: string): Option<(string, string)> {
    var at := SplitOnce(s, ch);
    if at.None? || !(opening <= at.value.1) then None else Some((at.value.0, at.value.1[|opening|..]))
  }

  /** What stands between the two texts, at either end. */
  function Inside(s: string, opening: string, closing: string): Option<string> {
    if opening <= s && |s| >= |opening| + |closing| && s[|s| - |closing|..] == closing
    then Some(s[|opening|..|s| - |closing|]) else None
  }

  function ReadEnd(s: string): Option<Option<string>> {
    if s == " }}\"" then Some(None)
    else
      var fallback := Inside(s, " | default(", ") }}\"");
      if fallback.None? then None else Some(fallback)
  }

  function ReadLine(line: string): Option<Line> {
    var a := Between(line, ':', " \"{{ ");
    if a.None? then None
    else
      var b := Between(a.value.1, '[', "'");
      if b.None? then None
      else
        var c := Between(b.value.1, '\'', "][");
        if c.None? then None
        else
          var d := Between(c.value.1, ']', "");
          if d.None? || ReadEnd(d.value.1).None? then None
          else Some(Line(a.value.0, b.value.0, c.value.0, d.value.0, ReadEnd(d.value.1).value))
  }

  /** The name of the tag variable `<name>_tag`. */
  function TagName(variable: string): Option<Name> {
    Inside(variable, "", "_tag")
  }

  /** Ansible looks up the tags under `kolla_image_tags`, by the variable that holds the distro and its version. */
  function Meaning(l: Line): Option<TagVar> {
    var name := TagName(l.variable);
    if name.None? || l.dictionary != "kolla_image_tags" || l.index != "kolla_base_distro_and_version" then None
    else if l.fallback.None? then Some(TagVar(name.value, l.key, None))
    else
      var fallback := TagName(l.fallback.value);
      if fallback.None? then None else Some(TagVar(name.value, l.key, fallback))
  }

  /** The tag variable that a line defines; None when the line is of another kind. */
  function ReadOverride(line: string): Option<TagVar> {
    var l := ReadLine(line);
    if l.None? then None else Meaning(l.value)
  }

  lemma BetweenOf(a: string, ch: char, opening: string, b: string)
    requires ch !in a
    ensures Between(a + [ch] + (opening + b), ch, opening) == Some((a, b))
  {
    SplitOnceOf(a, ch, opening + b);
  }

  lemma InsideOf(opening: string, s: string, closing: string)
    ensures Inside(opening + s + closing, opening, closing) == Some(s)
  {
    var t := opening + s + closing;
    assert t[|t| - |closing|..] == closing && t[|opening|..|t| - |closing|] == s;
  }

  lemma TagNameOf(n: Name)
    ensures TagName(n + "_tag") == Some(n)
  {
    InsideOf("", n, "_tag");
    assert "" + n + "_tag" == n + "_tag";
  }

  /** What follows the index. */
  function End(fallback: Option<string>): string {
    if fallback.None? then " }}\"" else " | default(" + fallback.value + ") }}\""
  }

  lemma ReadEndOf(fallback: Option<string>)
    ensures ReadEnd(End(fallback)) == Some(fallback)
  {
    if fallback.Some? {
      InsideOf(" | default(", fallback.value, ") }}\"");
      assert End(fallback)[1] == '|' && " }}\""[1] == '}';
    }
  }

  /** The text of a line. */
  function LineText(l: Line): string {
    var rest := l.key + "'" + ("][" + (l.index + "]" + End(l.fallback)));
    l.variable + ":" + (" \"{{ " + (l.dictionary + "[" + ("'" + rest)))
  }

  lemma ReadLineOf(l: Line)
    requires ':' !in l.variable && '[' !in l.dictionary && '\'' !in l.key && ']' !in l.index
    ensures ReadLine(LineText(l)) == Some(l)
  {
    var e := End(l.fallback);
    var d := l.index + "]" + e;
    var c := l.key + "'" + ("][" + d);
    var b := l.dictionary + "[" + ("'" + c);
    BetweenOf(l.variable, ':', " \"{{ ", b);
    BetweenOf(l.dictionary, '[', "'", c);
    BetweenOf(l.key, '\'', "][", d);
    assert "" + e == e;
    BetweenOf(l.index, ']', "", e);
    ReadEndOf(l.fallback);
  }

  /** The names in a printed line. */
  function LineOf(v: TagVar): Line {
    var fallback := if v.fallback.None? then None else Some(v.fallback.value + "_tag");
    Line(v.name + "_tag", "kolla_image_tags", v.key, "kolla_base_distro_and_version", fallback)
  }

  lemma Associative(a: string, b: string, c: string)
    ensures a + b + c == a + (b + c)
  {
  }

  lemma PrintedEnd(v: TagVar)
    ensures Default(v) + " }}\"" == End(LineOf(v).fallback)
  {
    if v.fallback.Some? {
      var f := v.fallback.value;
      assert ") }}\"" == ")" + " }}\"" && "_tag)" == "_tag" + ")";
      assert Default(v) + " }}\"" == " | default(" + f + "_tag" + ")" + " }}\"";
    }
  }

  lemma FixedOpening()
    ensures "_tag: \"{{ kolla_image_tags['" == "_tag" + (":" + (" \"{{ " + ("kolla_image_tags" + ("[" + "'"))))
  {
  }

  lemma FixedIndex()
    ensures "'][kolla_base_distro_and_version]" == "'" + ("][" + ("kolla_base_distro_and_version" + "]"))
  {
  }

  /** A line is its parts one after the other. */
  lemma Flat(name: string, s: string, o: string, d: string, key: string, x: string, e: string)
    ensures var rest := key + "'" + ("][" + (x + "]" + e));
            name + s + ":" + (o + (d + "[" + ("'" + rest)))
            == name + (s + (":" + (o + (d + ("[" + "'"))))) + key + ("'" + ("][" + (x + "]"))) + e
  {
    var tail := "'" + ("][" + (x + "]" + e));
    Associative(key, "'", "][" + (x + "]" + e));
    FlatTail(x, e);
    FlatHead(name, s, o, d, key + tail);
    Associative(name + (s + (":" + (o + (d + ("[" + "'"))))), key, tail);
    Associative(name + (s + (":" + (o + (d + ("[" + "'"))))) + key, "'" + ("][" + (x + "]")), e);
  }

  lemma FlatTail(x: string, e: string)
    ensures "'" + ("][" + (x + "]" + e)) == "'" + ("][" + (x + "]")) + e
  {
    Associative("][", x + "]", e);
    Associative("'", "][" + (x + "]"), e);
  }

  lemma FlatHead(name: string, s: string, o: string, d: string, rest: string)
    ensures name + s + ":" + (o + (d + "[" + ("'" + rest))) == name + (s + (":" + (o + (d + ("[" + "'"))))) + rest
  {
    Associative("[", "'", rest);
    Associative(d, "[", "'" + rest);
    Associative(d, "[" + "'", rest);
    Associative(o, d + ("[" + "'"), rest);
    Associative(":", o + (d + ("[" + "'")), rest);
    Associative(s, ":" + (o + (d + ("[" + "'"))), rest);
    Associative(name, s + (":" + (o + (d + ("[" + "'")))), rest);
    Associative(name, s, ":");
    Associative(name, s + ":", o + (d + "[" + ("'" + rest)));
    Associative(s, ":", o + (d + "[" + ("'" + rest)));
  }

  lemma PrintedIsLine(v: TagVar)
    ensures PrintLine(v) == LineText(LineOf(v))
  {
    var e := End(LineOf(v).fallback);
    PrintedEnd(v);
    FixedOpening();
    FixedIndex();
    Flat(v.name, "_tag", " \"{{ ", "kolla_image_tags", v.key, "kolla_base_distro_and_version", e);
    Associative(v.name + "_tag: \"{{ kolla_image_tags['" + v.key + "'][kolla_base_distro_and_version]", Default(v),
                " }}\"");
  }

  lemma FixedNames()
    ensures ':' !in "_tag" && '[' !in "kolla_image_tags" && ']' !in "kolla_base_distro_and_version"
  {
  }

  lemma VariableWithoutColon(n: Name)
    requires ':' !in n
    ensures ':' !in n + "_tag"
  {
    FixedNames();
  }

  lemma MeaningOf(v: TagVar)
    ensures Meaning(LineOf(v)) == Some(v)
  {
    TagNameOf(v.name);
    if v.fallback.Some? { TagNameOf(v.fallback.value); }
  }

  /** Ansible reads a printed line as the variable that was printed. */
  lemma ReadPrinted(v: TagVar)
    requires ':' !in v.name && '\'' !in v.key
    ensures ReadOverride(PrintLine(v)) == Some(v)
  {
    PrintedIsLine(v);
    FixedNames();
    VariableWithoutColon(v.name);
    ReadLineOf(LineOf(v));
    MeaningOf(v);
  }

  // -----------------------------------------------------------------------------------------------
  // All lines
  // -----------------------------------------------------------------------------------------------

  type Printer = TagVar -> string

  type Reader = string -> Option<TagVar>

  /** The variables defined by a list of lines; a later line for the same variable wins. */
  function ReadAll(read: Reader, lines: seq<string>): map<Name, TagVar> {
    if lines == [] then map[]
    else
      var m, last := ReadAll(read, lines[..|lines| - 1]), read(lines[|lines| - 1]);
      if last.None? then m else m[last.value.name := last.value]
  }

  /** The variable a printed line falls back to; with a key in the file the search has a first element. */
  function Fallback(tags: KollaImageTags, n: Name): Option<Name> {
    if n == OPENSTACK then None
    else
      var parent := ParentTagName(tags, None, n);
      if parent.Ok? then Some(parent.value) else None
  }

  /** The variables in the order of the file. */
  function Vars(tags: KollaImageTags): (vars: seq<TagVar>)
  {
    seq(|tags.order|, i requires 0 <= i < |tags.order| =>
          TagVar(tags.order[i], tags.order[i], Fallback(tags, tags.order[i])))
  }

  function PrintAll(show: Printer, vars: seq<TagVar>): seq<string> {
    if vars == [] then [] else PrintAll(show, vars[..|vars| - 1]) + [show(vars[|vars| - 1])]
  }

  /** One line for each key, in the order of the file. */
  method ListTagVars(tags: KollaImageTags) returns (lines: seq<string>)
    ensures lines == PrintAll(PrintLine, Vars(tags))
  {
    lines := [];
    ghost var vars := Vars(tags);
    for i := 0 to |tags.order|
      invariant lines == PrintAll(PrintLine, vars[..i])
    {
      var n := tags.order[i];
      var v := TagVar(n, n, Fallback(tags, n));
      assert vars[..i + 1][..i] == vars[..i] && vars[..i + 1][i] == v;
      lines := lines + [PrintLine(v)];
    }
    assert vars[..|vars|] == vars;
  }

  /** The variables by name, the last one of each name. */
  ghost function ByName(vars: seq<TagVar>): map<Name, TagVar> {
    if vars == [] then map[] else ByName(vars[..|vars| - 1])[vars[|vars| - 1].name := vars[|vars| - 1]]
  }

  lemma ReadAllStep(read: Reader, lines: seq<string>, line: string, v: TagVar)
    requires read(line) == Some(v)
    ensures ReadAll(read, lines + [line]) == ReadAll(read, lines)[v.name := v]
  {
    var all := lines + [line];
    assert all[..|all| - 1] == lines;
  }

  /** Where the reader undoes the printer, the printed lines define exactly the printed variables. */
  lemma {:induction false} ReadAllPrinted(show: Printer, read: Reader, vars: seq<TagVar>)
    requires forall i :: 0 <= i < |vars| ==> read(show(vars[i])) == Some(vars[i])
    ensures ReadAll(read, PrintAll(show, vars)) == ByName(vars)
  {
    if vars != [] {
      var k := |vars| - 1;
      ReadAllPrinted(show, read, vars[..k]);
      ReadAllStep(read, PrintAll(show, vars[..k]), show(vars[k]), vars[k]);
    }
  }

  lemma {:induction false} ByNameAt(vars: seq<TagVar>, i: nat)
    requires forall i, j :: 0 <= i < j < |vars| ==> vars[i].name != vars[j].name
    requires i < |vars|
    ensures vars[i].name in ByName(vars) && ByName(vars)[vars[i].name] == vars[i]
  {
    if i < |vars| - 1 {
      ByNameAt(vars[..|vars| - 1], i);
    }
  }

  lemma {:induction false} ByNameKeys(vars: seq<TagVar>, n: Name)
    requires n in ByName(vars)
    ensures exists i :: 0 <= i < |vars| && vars[i].name == n
  {
    var k := |vars| - 1;
    if n != vars[k].name {
      ByNameKeys(vars[..k], n);
      var i :| 0 <= i < k && vars[..k][i].name == n;
      assert vars[i].name == n;
    }
  }

  /** Variables listed under distinct names are found by name. */
  lemma ByNameListed(order: seq<Name>, fallback: Name -> Option<Name>, vars: seq<TagVar>)
    requires NoDuplicates(order)
    requires |vars| == |order|
    requires forall i :: 0 <= i < |order| ==> vars[i] == TagVar(order[i], order[i], fallback(order[i]))
    ensures forall n :: n in ByName(vars) <==> n in order
    ensures forall n :: n in ByName(vars) ==> ByName(vars)[n] == TagVar(n, n, fallback(n))
  {
    forall n | n in order ensures n in ByName(vars) && ByName(vars)[n] == TagVar(n, n, fallback(n)) {
      var i :| 0 <= i < |order| && order[i] == n;
      ByNameAt(vars, i);
    }
    forall n | n in ByName(vars) ensures n in order {
      ByNameKeys(vars, n);
    }
  }

  lemma ReadAllByName(tags: KollaImageTags)
    requires forall n :: n in tags.entry ==> ':' !in n && '\'' !in n
    ensures ReadAll(ReadOverride, PrintAll(PrintLine, Vars(tags))) == ByName(Vars(tags))
  {
    var vars := Vars(tags);
    forall i | 0 <= i < |vars| ensures ReadOverride(PrintLine(vars[i])) == Some(vars[i]) {
      assert tags.order[i] in tags.order;
      ReadPrinted(vars[i]);
    }
    ReadAllPrinted(PrintLine, ReadOverride, vars);
  }

  lemma VarsByName(tags: KollaImageTags)
    ensures ByName(Vars(tags)).Keys == tags.entry.Keys
    ensures forall n :: n in ByName(Vars(tags)) ==> ByName(Vars(tags))[n] == TagVar(n, n, Fallback(tags, n))
  {
    ByNameListed(tags.order, n => Fallback(tags, n), Vars(tags));
  }

  /** Read by Ansible, the printed lines define the keys of the tags file. */
  lemma ReadAllVars(tags: KollaImageTags)
    requires forall n :: n in tags.entry ==> ':' !in n && '\'' !in n
    ensures var m := ReadAll(ReadOverride, PrintAll(PrintLine, Vars(tags)));
            m.Keys == tags.entry.Keys && forall n :: n in m ==> m[n] == TagVar(n, n, Fallback(tags, n))
  {
    ReadAllByName(tags);
    VarsByName(tags);
  }
}
