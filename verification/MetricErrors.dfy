/** What the writer does with label values that cannot be read back: it raises, or exports something else. */
module MetricErrors {
  import opened Prelude
  import opened PyText
  import opened MetricText
  import opened MetricExport

  // -----------------------------------------------------------------------------------------------
  // Splitting
  // -----------------------------------------------------------------------------------------------

  lemma SplitNone(s: string, ch: char)
    requires ch !in s
    ensures Split(s, ch) == [s]
  {
  }

  lemma SplitNext(x: string, ch: char, y: string)
    requires ch !in x
    ensures Split(x + [ch] + y, ch) == [x] + Split(y, ch)
  {
    SplitOnceOf(x, ch, y);
  }

  lemma Regroup(a: string, b: string, c: string, d: string)
    ensures a + (b + c + d) == (a + b) + c + d == a + b + (c + d)
  {
  }

  lemma SplitPrefixed(a: string, s: string, ch: char)
    requires ch !in a
    ensures Split(a + s, ch) == [a + Split(s, ch)[0]] + Split(s, ch)[1..]
  {
    var first := SplitOnce(s, ch);
    if first.None? {
      SplitNone(a + s, ch);
    } else {
      var x, y := first.value.0, first.value.1;
      SplitNext(x, ch, y);
      SplitNext(a + x, ch, y);
      Regroup(a, x, [ch], y);
    }
  }

  lemma {:induction false} SplitSuffixed(s: string, b: string, ch: char)
    requires ch !in b
    ensures var p := Split(s, ch); Split(s + b, ch) == p[..|p| - 1] + [p[|p| - 1] + b]
    decreases |s|
  {
    var first := SplitOnce(s, ch);
    if first.None? {
      SplitNone(s + b, ch);
    } else {
      var x, y := first.value.0, first.value.1;
      SplitNext(x, ch, y);
      SplitNext(x, ch, y + b);
      Regroup(x, [ch], y, b);
      SplitSuffixed(y, b, ch);
    }
  }

  lemma Associative<T>(a: seq<T>, b: seq<T>, c: seq<T>)
    ensures a + (b + c) == a + b + c
  {
  }

  lemma SeparatorStep(x: string, y: string, rest: string, t: string, ch: char)
    requires ch !in x && rest == y + [ch] + t && Split(rest, ch) == Split(y, ch) + Split(t, ch)
    ensures Split(x + [ch] + y + [ch] + t, ch) == Split(x + [ch] + y, ch) + Split(t, ch)
  {
    SplitNext(x, ch, y);
    SplitNext(x, ch, rest);
    Regroup(x + [ch], y, [ch], t);
    Associative([x], Split(y, ch), Split(t, ch));
  }

  lemma {:induction false} SplitAtSeparator(s: string, t: string, ch: char)
    ensures Split(s + [ch] + t, ch) == Split(s, ch) + Split(t, ch)
    decreases |s|
  {
    var first := SplitOnce(s, ch);
    if first.None? {
      SplitNext(s, ch, t);
      SplitNone(s, ch);
    } else {
      SplitAtSeparator(first.value.1, t, ch);
      SeparatorStep(first.value.0, first.value.1, first.value.1 + [ch] + t, t, ch);
    }
  }

  // -----------------------------------------------------------------------------------------------
  // The keys that are read
  // -----------------------------------------------------------------------------------------------

  /** The keys of the pieces that are read as labels. */
  function ReadKeys(pieces: seq<string>): seq<string> {
    if pieces == [] then []
    else
      var kv := SplitOnce(pieces[|pieces| - 1], '=');
      ReadKeys(pieces[..|pieces| - 1]) + if kv.Some? then [Trim(kv.value.0)] else []
  }

  lemma {:induction false} ReadKeysConcat(a: seq<string>, b: seq<string>)
    ensures ReadKeys(a + b) == ReadKeys(a) + ReadKeys(b)
  {
    if b == [] {
      assert a + b == a;
    } else {
      assert (a + b)[..|a + b| - 1] == a + b[..|b| - 1];
      ReadKeysConcat(a, b[..|b| - 1]);
    }
  }

  lemma {:induction false} ReadLabelsKeys(pieces: seq<string>)
    ensures Keys(ReadLabels(pieces)) == ReadKeys(pieces)
  {
    if pieces != [] {
      var init, last := ReadLabels(pieces[..|pieces| - 1]), ReadLabel(pieces[|pieces| - 1]);
      ReadLabelsKeys(pieces[..|pieces| - 1]);
      if last.Some? {
        assert (init + [last.value])[..|init|] == init;
      }
    }
  }

  /** The keys that a value adds: those of its pieces after the first comma that have a `=`. */
  function ExtraKeys(v: string): seq<string> {
    ReadKeys(Split(v, ',')[1..])
  }

  lemma ReadKeysOne(piece: string)
    ensures ReadKeys([piece]) == var kv := SplitOnce(piece, '='); if kv.Some? then [Trim(kv.value.0)] else []
  {
    assert [piece][..0] == [];
  }

  /** A closing quote leaves the key of a piece as it is. */
  lemma QuotedKey(piece: string)
    ensures ReadKeys([piece + "\""]) == ReadKeys([piece])
  {
    var kv := SplitOnce(piece, '=');
    ReadKeysOne(piece);
    ReadKeysOne(piece + "\"");
    if kv.Some? {
      SplitOnceOf(kv.value.0, '=', kv.value.1 + "\"");
      assert piece + "\"" == kv.value.0 + ['='] + (kv.value.1 + "\"");
    }
  }

  /** A closing quote adds no key, to a value with commas or without. */
  lemma ExtraQuoted(v: string)
    ensures ExtraKeys(v + "\"") == ExtraKeys(v)
  {
    var p := Split(v, ',');
    SplitSuffixed(v, "\"", ',');
    if |p| > 1 {
      var init, last := p[1..|p| - 1], p[|p| - 1];
      assert p[1..] == init + [last];
      assert Split(v + "\"", ',')[1..] == init + [last + "\""];
      ReadKeysConcat(init, [last]);
      ReadKeysConcat(init, [last + "\""]);
      QuotedKey(last);
    }
  }

  lemma FirstKey(key: string, rest: string)
    requires CleanKey(key)
    ensures ReadKeys([key + "=" + rest]) == [key]
  {
    SplitOnceOf(key, '=', rest);
    ReadKeysOne(key + "=" + rest);
    StripBare(key, IsSpace);
  }

  /** One label is read with its own key and those its value adds. */
  lemma LabelTextKeys(l: Label)
    requires CleanKey(l.key)
    ensures ReadKeys(Split(LabelText(l), ',')) == [l.key] + ExtraKeys(l.value)
  {
    var quoted := l.value + "\"";
    var head := l.key + "=" + "\"";
    assert LabelText(l) == head + quoted;
    SplitPrefixed(head, quoted, ',');
    var p := Split(quoted, ',');
    Regroup(l.key, "=", "\"", p[0]);
    assert head + p[0] == l.key + "=" + ("\"" + p[0]);
    FirstKey(l.key, "\"" + p[0]);
    ReadKeysConcat([head + p[0]], p[1..]);
    ExtraQuoted(l.value);
  }

  /** The keys read from a line that prints these labels. */
  function KeysRead(labels: seq<Label>): (keys: seq<string>)
    ensures |keys| >= |labels|
  {
    if labels == [] then []
    else
      var last := labels[|labels| - 1];
      KeysRead(labels[..|labels| - 1]) + ([last.key] + ExtraKeys(last.value))
  }

  lemma {:induction false} JoinLast(pieces: seq<string>, piece: string, ch: char)
    requires pieces != []
    ensures Join(pieces + [piece], ch) == Join(pieces, ch) + [ch] + piece
  {
    if |pieces| > 1 {
      JoinLast(pieces[1..], piece, ch);
      assert (pieces + [piece])[1..] == pieces[1..] + [piece];
    }
  }

  ghost predicate KeysClean(labels: seq<Label>) {
    forall i :: 0 <= i < |labels| ==> CleanKey(labels[i].key)
  }

  lemma {:induction false} JoinedKeys(labels: seq<Label>)
    requires KeysClean(labels)
    ensures ReadKeys(Split(Join(LabelTexts(labels), ','), ',')) == KeysRead(labels)
  {
    if labels == [] {
      ReadKeysOne("");
    } else {
      var init, l := labels[..|labels| - 1], labels[|labels| - 1];
      LabelTextKeys(l);
      if init == [] {
        assert LabelTexts(labels) == [LabelText(l)];
      } else {
        JoinedKeys(init);
        JoinLast(LabelTexts(init), LabelText(l), ',');
        SplitAtSeparator(Join(LabelTexts(init), ','), LabelText(l), ',');
        ReadKeysConcat(Split(Join(LabelTexts(init), ','), ','), Split(LabelText(l), ','));
      }
    }
  }

  // -----------------------------------------------------------------------------------------------
  // Braces
  // -----------------------------------------------------------------------------------------------

  ghost predicate NoBrace(labels: seq<Label>) {
    forall i :: 0 <= i < |labels| ==> '}' !in labels[i].value
  }

  lemma {:induction false} JoinedBrace(labels: seq<Label>)
    requires KeysClean(labels)
    ensures '}' in Join(LabelTexts(labels), ',') <==> !NoBrace(labels)
  {
    if labels != [] {
      var init, l := labels[..|labels| - 1], labels[|labels| - 1];
      assert '}' in LabelText(l) <==> '}' in l.value by { LabelTextBrace(l); }
      JoinedBrace(init);
      if init == [] {
        assert LabelTexts(labels) == [LabelText(l)];
      } else {
        JoinLast(LabelTexts(init), LabelText(l), ',');
        var a, b := Join(LabelTexts(init), ','), LabelText(l);
        assert '}' in a + [','] + b <==> '}' in a || '}' in b;
      }
    }
  }

  lemma LabelTextBrace(l: Label)
    requires CleanKey(l.key)
    ensures '}' in LabelText(l) <==> '}' in l.value
  {
    var head := l.key + "=\"";
    assert '}' !in "=\"" && '}' !in head;
    assert LabelText(l) == head + l.value + "\"";
  }

  lemma StripKeeps(s: string, p: char -> bool, ch: char)
    requires ch in s && !p(ch)
    ensures ch in Strip(s, p)
  {
    var a := StripLeftSplit(s, p);
    var b := StripRightSplit(StripLeft(s, p), p);
    assert ch !in a && ch !in b;
  }

  // -----------------------------------------------------------------------------------------------
  // One line
  // -----------------------------------------------------------------------------------------------

  /** A metric as the emitters make them: only its label values may be unclean. */
  ghost predicate Plain(m: Metric) {
    '{' !in m.name && m.labels != [] && KeysClean(m.labels) && Bare(m.value, IsSpace)
  }

  /**
    The line always splits. Without braces in the values the number is read as printed, else a brace is read with it.
  */
  lemma ParseRendered(m: Metric)
    requires Plain(m)
    ensures Parse(Render(m)).Ok? && Parse(Render(m)).value.name == m.name
    ensures NoBrace(m.labels) ==> Parse(Render(m)).value.value == m.value
    ensures NoBrace(m.labels) ==> Keys(Parse(Render(m)).value.labels) == KeysRead(m.labels)
    ensures !NoBrace(m.labels) ==> '}' in Parse(Render(m)).value.value
  {
    var j := Join(LabelTexts(m.labels), ',');
    var rest := j + "}" + (" " + m.value);
    SplitOnceOf(m.name, '{', rest);
    JoinedBrace(m.labels);
    if NoBrace(m.labels) {
      SplitOnceOf(j, '}', " " + m.value);
      StripPadded(" ", m.value, "", IsSpace);
      assert " " + m.value + "" == " " + m.value;
      ReadLabelsKeys(Split(j, ','));
      JoinedKeys(m.labels);
    } else {
      BraceLeft(j, " " + m.value);
      StripKeeps(SplitOnce(rest, '}').value.1, IsSpace, '}');
    }
  }

  lemma BraceLeft(j: string, tail: string)
    requires '}' in j
    ensures SplitOnce(j + "}" + tail, '}').Some? && '}' in SplitOnce(j + "}" + tail, '}').value.1
  {
    var first := SplitOnce(j, '}').value;
    SplitOnceOf(first.0, '}', first.1 + "}" + tail);
    assert j + "}" + tail == first.0 + ['}'] + (first.1 + "}" + tail);
    assert "}"[0] == '}';
  }

  // -----------------------------------------------------------------------------------------------
  // The export
  // -----------------------------------------------------------------------------------------------

  ghost predicate AllPlain(ms: seq<Metric>) {
    forall i :: 0 <= i < |ms| ==> Plain(ms[i])
  }

  ghost predicate NoBraces(ms: seq<Metric>) {
    forall i :: 0 <= i < |ms| ==> NoBrace(ms[i].labels)
  }

  /** From all lines of one name the same number of labels is read. */
  ghost predicate SameCounts(ms: seq<Metric>) {
    forall i, j :: 0 <= i < |ms| && 0 <= j < |ms| && ms[i].name == ms[j].name
      ==> |KeysRead(ms[i].labels)| == |KeysRead(ms[j].labels)|
  }

  ghost function NamesOf(ms: seq<Metric>): set<string> {
    if ms == [] then {} else NamesOf(ms[..|ms| - 1]) + {ms[|ms| - 1].name}
  }

  lemma {:induction false} NameOf(ms: seq<Metric>, n: string) returns (i: nat)
    requires n in NamesOf(ms)
    ensures i < |ms| && ms[i].name == n
  {
    i := |ms| - 1;
    if n != ms[i].name { i := NameOf(ms[..i], n); }
  }

  /** The first line of its name. */
  ghost predicate IsFirst(ms: seq<Metric>, i: nat)
    requires i < |ms|
  {
    ms[i].name !in NamesOf(ms[..i])
  }

  /** The keys read from the first line of each name are those of a gauge that may be made. */
  ghost predicate FirstAccepted<V>(ms: seq<Metric>, w: Writer<V>) {
    forall i :: 0 <= i < |ms| && IsFirst(ms, i) ==> w.accepts(ms[i].name, KeysRead(ms[i].labels))
  }

  /** A text with a closing brace is not a number. */
  ghost predicate BracesAreNoNumbers<V>(w: Writer<V>) {
    forall s :: '}' in s ==> w.toFloat(s).None?
  }

  /** The gauges are those of the metrics' names, with as many label names as are read from their lines. */
  ghost predicate CountedGauges<V>(reg: Registry<V>, ms: seq<Metric>) {
    && reg.Keys == NamesOf(ms)
    && (forall i :: 0 <= i < |ms| ==> ms[i].name in reg && |reg[ms[i].name].labelNames| == |KeysRead(ms[i].labels)|)
  }

  /** The printed metric can be set: no brace, and keys that fit its gauge or can make a new one. */
  ghost predicate Fitting<V>(reg: Registry<V>, m: Metric, w: Writer<V>) {
    && NoBrace(m.labels)
    && if m.name in reg then |reg[m.name].labelNames| == |KeysRead(m.labels)| else w.accepts(m.name, KeysRead(m.labels))
  }

  /** Setting a metric keeps every number of label names. */
  ghost predicate Sized<V>(reg: Registry<V>, next: Registry<V>, name: string, size: nat) {
    && next.Keys == reg.Keys + {name} && |next[name].labelNames| == size
    && forall n :: n in reg ==> |next[n].labelNames| == |reg[n].labelNames|
  }

  lemma PutIff<V>(reg: Registry<V>, p: Metric, w: Writer<V>)
    requires p.labels != []
    ensures Put(reg, p, w).Ok? <==>
            && w.toFloat(p.value).Some?
            && if p.name in reg then |reg[p.name].labelNames| == |p.labels| else w.accepts(p.name, Keys(p.labels))
    ensures Put(reg, p, w).Ok? ==> Sized(reg, Put(reg, p, w).value, p.name, |p.labels|)
  {
  }

  /** A printed metric can be set exactly when it fits. */
  lemma LastLineIff<V>(reg: Registry<V>, m: Metric, w: Writer<V>)
    requires Plain(m) && w.toFloat(m.value).Some? && BracesAreNoNumbers(w)
    ensures var r := ExportLine(reg, Render(m), w);
            && (r.Ok? <==> Fitting(reg, m, w))
            && (r.Ok? ==> Sized(reg, r.value, m.name, |KeysRead(m.labels)|))
  {
    ParseRendered(m);
    var p := Parse(Render(m)).value;
    if p.labels != [] {
      PutIff(reg, p, w);
    }
  }

  lemma CountedStep<V>(reg: Registry<V>, next: Registry<V>, ms: seq<Metric>)
    requires ms != [] && CountedGauges(reg, ms[..|ms| - 1])
    requires Sized(reg, next, ms[|ms| - 1].name, |KeysRead(ms[|ms| - 1].labels)|)
    requires ms[|ms| - 1].name in reg ==> |reg[ms[|ms| - 1].name].labelNames| == |KeysRead(ms[|ms| - 1].labels)|
    ensures CountedGauges(next, ms)
  {
    forall i | 0 <= i < |ms| ensures ms[i].name in next && |next[ms[i].name].labelNames| == |KeysRead(ms[i].labels)| {
      if i < |ms| - 1 { assert ms[..|ms| - 1][i] == ms[i]; }
    }
  }

  /** Lines that share gauges share the number of labels. */
  lemma CountedSame<V>(reg: Registry<V>, ms: seq<Metric>)
    requires CountedGauges(reg, ms)
    ensures SameCounts(ms)
  {
  }

  /** Where all lines of one name agree, the last one agrees with its gauge. */
  lemma LastAgrees<V>(reg: Registry<V>, ms: seq<Metric>)
    requires ms != [] && CountedGauges(reg, ms[..|ms| - 1]) && SameCounts(ms)
    ensures var m := ms[|ms| - 1]; m.name in reg ==> |reg[m.name].labelNames| == |KeysRead(m.labels)|
  {
    var init, m := ms[..|ms| - 1], ms[|ms| - 1];
    if m.name in reg {
      var i := NameOf(init, m.name);
      assert init[i] == ms[i];
    }
  }

  lemma SameCountsOfFewer(ms: seq<Metric>)
    requires ms != [] && SameCounts(ms)
    ensures SameCounts(ms[..|ms| - 1])
  {
  }

  lemma NoBracesStep(ms: seq<Metric>)
    requires ms != []
    ensures NoBraces(ms) <==> NoBraces(ms[..|ms| - 1]) && NoBrace(ms[|ms| - 1].labels)
  {
    assert forall i :: 0 <= i < |ms| - 1 ==> ms[..|ms| - 1][i] == ms[i];
  }

  lemma FirstStep<V>(ms: seq<Metric>, w: Writer<V>)
    requires ms != []
    ensures var init, m := ms[..|ms| - 1], ms[|ms| - 1];
            FirstAccepted(ms, w) <==>
            FirstAccepted(init, w) && (m.name in NamesOf(init) || w.accepts(m.name, KeysRead(m.labels)))
  {
    var k, init := |ms| - 1, ms[..|ms| - 1];
    forall i | 0 <= i < k ensures init[i] == ms[i] && (IsFirst(init, i) <==> IsFirst(ms, i)) {
      assert init[..i] == ms[..i];
    }
    assert IsFirst(ms, k) <==> ms[k].name !in NamesOf(init);
  }

  /** One more line is exported exactly when it fits, and then the gauges have the right number of labels again. */
  lemma ExportStep<V>(reg: Registry<V>, ms: seq<Metric>, w: Writer<V>)
    requires ms != [] && Plain(ms[|ms| - 1]) && w.toFloat(ms[|ms| - 1].value).Some? && BracesAreNoNumbers(w)
    requires Export(Lines(ms[..|ms| - 1]), w) == Ok(reg) && CountedGauges(reg, ms[..|ms| - 1])
    ensures Export(Lines(ms), w).Ok? <==> Fitting(reg, ms[|ms| - 1], w)
    ensures Export(Lines(ms), w).Ok? ==> CountedGauges(Export(Lines(ms), w).value, ms)
  {
    ExportLastLine(ms, w);
    LastLineIff(reg, ms[|ms| - 1], w);
    if Export(Lines(ms), w).Ok? {
      CountedStep(reg, Export(Lines(ms), w).value, ms);
    }
  }

  lemma ExportLastLine<V>(ms: seq<Metric>, w: Writer<V>)
    requires ms != []
    ensures var before := Export(Lines(ms[..|ms| - 1]), w);
            Export(Lines(ms), w) == if before.Err? then before else ExportLine(before.value, Render(ms[|ms| - 1]), w)
  {
    assert Lines(ms)[..|ms| - 1] == Lines(ms[..|ms| - 1]);
  }

  /** No value has a brace, lines of one name have as many labels, and their gauge may be made. */
  ghost predicate Writable<V>(ms: seq<Metric>, w: Writer<V>) {
    NoBraces(ms) && SameCounts(ms) && FirstAccepted(ms, w)
  }

  lemma {:induction false} ExportOkIff<V>(ms: seq<Metric>, w: Writer<V>)
    requires AllPlain(ms) && NumbersPrinted(ms, w) && BracesAreNoNumbers(w)
    ensures Export(Lines(ms), w).Ok? <==> Writable(ms, w)
    ensures Export(Lines(ms), w).Ok? ==> CountedGauges(Export(Lines(ms), w).value, ms)
  {
    if ms != [] {
      var before := Export(Lines(ms[..|ms| - 1]), w);
      ExportOkIff(ms[..|ms| - 1], w);
      ExportLastLine(ms, w);
      NoBracesStep(ms);
      FirstStep(ms, w);
      if before.Ok? {
        ExportStep(before.value, ms, w);
        if Export(Lines(ms), w).Ok? {
          CountedSame(Export(Lines(ms), w).value, ms);
        } else if SameCounts(ms) {
          LastAgrees(before.value, ms);
        }
      } else if SameCounts(ms) {
        SameCountsOfFewer(ms);
      }
    }
  }

  /**
    The export raises exactly when a label value has a closing brace, two lines of one name are read with different
    numbers of labels, or the keys read from the first line of a name are refused.
  */
  lemma ExportRaisesIff<V>(ms: seq<Metric>, w: Writer<V>)
    requires AllPlain(ms) && NumbersPrinted(ms, w) && BracesAreNoNumbers(w)
    ensures Export(Lines(ms), w).Err? <==> !NoBraces(ms) || !SameCounts(ms) || !FirstAccepted(ms, w)
  {
    ExportOkIff(ms, w);
  }

  /** The export succeeds, and what it exports is not what was emitted. */
  ghost predicate ExportsSomethingElse<V>(ms: seq<Metric>, w: Writer<V>) {
    Export(Lines(ms), w).Ok? && !Faithful(Export(Lines(ms), w).value, ms, w)
  }

  /** The value has neither a comma nor a quote at an end, so that only a brace can spoil it. */
  predicate Unaltered(v: string) {
    ',' !in v && Bare(v, IsQuote)
  }

  ghost predicate NoneAltered(ms: seq<Metric>) {
    forall i, j :: 0 <= i < |ms| && 0 <= j < |ms[i].labels| ==> Unaltered(ms[i].labels[j].value)
  }

  /** Clean values are those without a brace that are not altered. */
  lemma CleanIff(ms: seq<Metric>)
    requires AllPlain(ms)
    ensures CleanLabelled(ms) <==> NoBraces(ms) && NoneAltered(ms)
  {
    if NoBraces(ms) && NoneAltered(ms) {
      forall i | 0 <= i < |ms| ensures ms[i].labels != [] && CleanMetric(ms[i]) {
        assert Plain(ms[i]) && NoBrace(ms[i].labels);
      }
    }
    if CleanLabelled(ms) {
      forall i, j | 0 <= i < |ms| && 0 <= j < |ms[i].labels| ensures CleanValue(ms[i].labels[j].value) {
        assert CleanMetric(ms[i]) && CleanLabel(ms[i].labels[j]);
      }
    }
  }

  /** Without an error, something else is exported exactly when a value has a comma, or a quote at an end. */
  lemma SilentlyAlteredIff<V>(ms: seq<Metric>, w: Writer<V>)
    requires AllPlain(ms) && NumbersPrinted(ms, w) && BracesAreNoNumbers(w) && SameKeys(ms) && AllAccepted(ms, w)
    ensures ExportsSomethingElse(ms, w) <==> Writable(ms, w) && !NoneAltered(ms)
  {
    ExportOkIff(ms, w);
    ExportFaithfulIff(ms, w);
    CleanIff(ms);
  }

  // -----------------------------------------------------------------------------------------------
  // What goes wrong
  // -----------------------------------------------------------------------------------------------

  /** A metric for the disk `d`. */
  function Disk(d: string): Metric {
    Metric("m", [Label("disk", d)], "1")
  }

  /** Numbers are read as numbers, and a gauge for disks may be made. */
  ghost predicate Ordinary<V>(w: Writer<V>) {
    BracesAreNoNumbers(w) && w.toFloat("1").Some? && w.accepts("m", ["disk"])
  }

  lemma DiskPlain(d: string)
    ensures Plain(Disk(d)) && Keys(Disk(d).labels) == ["disk"] && KeysRead(Disk(d).labels) == ["disk"] + ExtraKeys(d)
  {
    var labels := Disk(d).labels;
    assert labels[..0] == [] && CleanKey("disk");
  }

  lemma ExtraOfOne(a: string)
    requires ',' !in a
    ensures ExtraKeys(a) == []
  {
    SplitNone(a, ',');
  }

  lemma ExtraOfTwo(a: string, b: string)
    requires ',' !in a && ',' !in b
    ensures ExtraKeys(a + [','] + b) == ReadKeys([b])
  {
    SplitNext(a, ',', b);
    SplitNone(b, ',');
  }

  /** Two disks whose names are read with different numbers of labels. */
  lemma DifferentCountsRaise<V>(w: Writer<V>, c: string, d: string)
    requires Ordinary(w) && |ExtraKeys(c)| != |ExtraKeys(d)|
    ensures Export(Lines([Disk(c), Disk(d)]), w).Err?
  {
    var ms := [Disk(c), Disk(d)];
    DiskPlain(c);
    DiskPlain(d);
    assert ms[0].name == ms[1].name && |KeysRead(ms[0].labels)| != |KeysRead(ms[1].labels)|;
    ExportRaisesIff(ms, w);
  }

  /** One line alone. */
  lemma OneLine<V>(m: Metric, w: Writer<V>)
    requires Plain(m) && NoBrace(m.labels) && w.toFloat(m.value).Some?
    requires w.accepts(m.name, Keys(m.labels)) && w.accepts(m.name, KeysRead(m.labels))
    ensures AllPlain([m]) && NumbersPrinted([m], w) && SameKeys([m]) && AllAccepted([m], w) && Writable([m], w)
  {
  }

  lemma OneAltered(m: Metric, j: nat)
    requires j < |m.labels| && !Unaltered(m.labels[j].value)
    ensures !NoneAltered([m])
  {
    assert [m][0].labels[j] == m.labels[j];
  }

  /** A disk whose name is read as another one. */
  lemma AlteredDisk<V>(w: Writer<V>, d: string)
    requires Ordinary(w) && '}' !in d && ExtraKeys(d) == [] && !Unaltered(d)
    ensures ExportsSomethingElse([Disk(d)], w)
  {
    DiskPlain(d);
    assert KeysRead(Disk(d).labels) == ["disk"];
    OneLine(Disk(d), w);
    OneAltered(Disk(d), 0);
    SilentlyAlteredIff([Disk(d)], w);
  }

  /** A brace raises. */
  lemma BraceRaises<V>(w: Writer<V>)
    requires Ordinary(w)
    ensures Export(Lines([Disk("a}")]), w).Err?
  {
    var ms := [Disk("a}")];
    DiskPlain("a}");
    assert "a}"[1] == '}' && !NoBrace(ms[0].labels);
    ExportRaisesIff(ms, w);
  }

  lemma NamesWithComma()
    ensures ',' !in "A" && ',' !in "B" && ',' !in "x=1" && '=' !in "B" && '=' in "x=1"
    ensures "A" + [','] + "B" == "A,B" && "A" + [','] + "x=1" == "A,x=1"
    ensures '}' !in "A,B" && ',' in "A,B"
  {
    assert "x=1"[1] == '=' && "A,B"[1] == ',';
  }

  /** A comma before a `=` adds a label, which another line of the name does not have. */
  lemma ExtraLabelRaises<V>(w: Writer<V>)
    requires Ordinary(w)
    ensures Export(Lines([Disk("A"), Disk("A,x=1")]), w).Err?
  {
    NamesWithComma();
    ExtraOfOne("A");
    ExtraOfTwo("A", "x=1");
    ReadKeysOne("x=1");
    DifferentCountsRaise(w, "A", "A,x=1");
  }

  /** A comma alone raises nothing, and the value is exported under another label. */
  lemma CommaAlters<V>(w: Writer<V>)
    requires Ordinary(w)
    ensures ExportsSomethingElse([Disk("A,B")], w)
  {
    NamesWithComma();
    ExtraOfTwo("A", "B");
    ReadKeysOne("B");
    AlteredDisk(w, "A,B");
  }
}
