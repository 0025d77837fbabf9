/** The metric lines of `smartmon.py`: how the emitters print them and how the writer splits them again. */
module MetricText {
  import opened Prelude
  import opened PyText

  datatype Label = Label(key: string, value: string)

  /** `name{key="value",...} value`, the value still as text. */
  datatype Metric = Metric(name: string, labels: seq<Label>, value: string)

  /** A failed tuple unpacking. */
  datatype ParseError = ValueError

  predicate IsQuote(ch: char) {
    ch == '"'
  }

  function LabelText(l: Label): string {
    l.key + "=" + ("\"" + l.value + "\"")
  }

  function LabelTexts(labels: seq<Label>): (r: seq<string>)
    ensures |r| == |labels|
  {
    if labels == [] then [] else LabelTexts(labels[..|labels| - 1]) + [LabelText(labels[|labels| - 1])]
  }

  function Render(m: Metric): string {
    m.name + "{" + (Join(LabelTexts(m.labels), ',') + "}" + (" " + m.value))
  }

  /** What is printed for two labels. */
  lemma RenderTwo(name: string, a: Label, b: Label, value: string)
    ensures Render(Metric(name, [a, b], value)) ==
            name + "{" + a.key + "=\"" + a.value + "\"," + b.key + "=\"" + b.value + "\"} " + value
  {
    var texts := [LabelText(a), LabelText(b)];
    assert [a, b][..1] == [a] && [a][..0] == [] && LabelTexts([a, b]) == texts;
    assert texts[1..] == [LabelText(b)];
    assert Join(texts, ',') == LabelText(a) + "," + LabelText(b);
    assert LabelText(a) == a.key + "=\"" + a.value + "\"" && LabelText(b) == b.key + "=\"" + b.value + "\"";
    var all := a.key + "=\"" + a.value + "\"," + b.key + "=\"" + b.value + "\"";
    assert LabelText(a) + "," + LabelText(b) == all;
    assert name + "{" + (all + "}" + (" " + value)) == name + "{" + all + "} " + value;
  }

  /** One piece of the label text; a piece without `=` is not a label. */
  function ReadLabel(piece: string): Option<Label> {
    var kv := SplitOnce(piece, '=');
    if kv.None? then None else Some(Label(Trim(kv.value.0), Strip(kv.value.1, IsQuote)))
  }

  function ReadLabels(pieces: seq<string>): seq<Label> {
    if pieces == [] then []
    else
      var init, last := ReadLabels(pieces[..|pieces| - 1]), ReadLabel(pieces[|pieces| - 1]);
      if last.None? then init else init + [last.value]
  }

  function Parse(line: string): Result<Metric, ParseError> {
    var atBrace := SplitOnce(line, '{');
    if atBrace.None? then Err(ValueError)
    else
      var atEnd := SplitOnce(atBrace.value.1, '}');
      if atEnd.None? then Err(ValueError)
      else Ok(Metric(atBrace.value.0, ReadLabels(Split(atEnd.value.0, ',')), Trim(atEnd.value.1)))
  }

  // -----------------------------------------------------------------------------------------------
  // When a printed line is read back
  // -----------------------------------------------------------------------------------------------

  predicate CleanKey(k: string) {
    ',' !in k && '}' !in k && '=' !in k && Bare(k, IsSpace)
  }

  /** No comma, no closing brace, and no quote at either end. */
  predicate CleanValue(v: string) {
    ',' !in v && '}' !in v && Bare(v, IsQuote)
  }

  predicate CleanLabel(l: Label) {
    CleanKey(l.key) && CleanValue(l.value)
  }

  predicate CleanMetric(m: Metric) {
    '{' !in m.name && (forall i :: 0 <= i < |m.labels| ==> CleanLabel(m.labels[i])) && Bare(m.value, IsSpace)
  }

  lemma ReadLabelClean(piece: string)
    requires ',' !in piece && '}' !in piece && ReadLabel(piece).Some?
    ensures CleanLabel(ReadLabel(piece).value)
  {
    var kv := SplitOnce(piece, '=').value;
    StripBare(kv.0, IsSpace);
    StripBare(kv.1, IsQuote);
  }

  lemma {:induction false} ReadLabelsClean(pieces: seq<string>)
    requires forall i :: 0 <= i < |pieces| ==> ',' !in pieces[i] && '}' !in pieces[i]
    ensures forall i :: 0 <= i < |ReadLabels(pieces)| ==> CleanLabel(ReadLabels(pieces)[i])
  {
    if pieces != [] {
      var last := pieces[|pieces| - 1];
      ReadLabelsClean(pieces[..|pieces| - 1]);
      if ReadLabel(last).Some? { ReadLabelClean(last); }
    }
  }

  lemma {:induction false} SplitChars(s: string, sep: char, ch: char)
    requires ch !in s
    ensures forall i :: 0 <= i < |Split(s, sep)| ==> ch !in Split(s, sep)[i]
    decreases |s|
  {
    var first := SplitOnce(s, sep);
    if first.Some? { SplitChars(first.value.1, sep, ch); }
  }

  /** Whatever is read from any line is clean. */
  lemma ParsedIsClean(line: string)
    requires Parse(line).Ok?
    ensures CleanMetric(Parse(line).value)
  {
    var atEnd := SplitOnce(SplitOnce(line, '{').value.1, '}').value;
    StripBare(atEnd.1, IsSpace);
    SplitChars(atEnd.0, ',', '}');
    ReadLabelsClean(Split(atEnd.0, ','));
  }

  /** A label's text is in one piece. */
  predicate OnePiece(s: string) {
    ',' !in s && '}' !in s
  }

  lemma LabelTextOnePiece(l: Label)
    requires CleanLabel(l)
    ensures OnePiece(LabelText(l))
  {
    var quoted := "\"" + l.value + "\"";
    assert OnePiece(quoted) && OnePiece("=") && OnePiece(l.key + "=");
  }

  lemma ReadLabelText(l: Label)
    requires CleanLabel(l)
    ensures ReadLabel(LabelText(l)) == Some(l)
  {
    SplitOnceOf(l.key, '=', "\"" + l.value + "\"");
    StripBare(l.key, IsSpace);
    StripPadded("\"", l.value, "\"", IsQuote);
  }

  lemma ReadLabelsAppend(pieces: seq<string>, piece: string, l: Label)
    requires ReadLabel(piece) == Some(l)
    ensures ReadLabels(pieces + [piece]) == ReadLabels(pieces) + [l]
  {
    assert (pieces + [piece])[..|pieces|] == pieces;
  }

  lemma LabelTextsAppend(labels: seq<Label>, l: Label)
    ensures LabelTexts(labels + [l]) == LabelTexts(labels) + [LabelText(l)]
  {
    assert (labels + [l])[..|labels|] == labels;
  }

  lemma {:induction false} ReadLabelTexts(labels: seq<Label>)
    requires forall i :: 0 <= i < |labels| ==> CleanLabel(labels[i])
    ensures ReadLabels(LabelTexts(labels)) == labels
  {
    if labels != [] {
      var init, l := labels[..|labels| - 1], labels[|labels| - 1];
      assert labels == init + [l];
      ReadLabelTexts(init);
      ReadLabelText(l);
      LabelTextsAppend(init, l);
      ReadLabelsAppend(LabelTexts(init), LabelText(l), l);
    }
  }

  lemma {:induction false} LabelTextsOnePiece(labels: seq<Label>, i: nat)
    requires (forall i :: 0 <= i < |labels| ==> CleanLabel(labels[i])) && i < |labels|
    ensures OnePiece(LabelTexts(labels)[i])
  {
    var k := |labels| - 1;
    if i == k { LabelTextOnePiece(labels[k]); } else { LabelTextsOnePiece(labels[..k], i); }
  }

  lemma SplitPieces(pieces: seq<string>)
    requires forall i :: 0 <= i < |pieces| ==> OnePiece(pieces[i])
    ensures '}' !in Join(pieces, ',')
    ensures Split(Join(pieces, ','), ',') == if pieces == [] then [""] else pieces
  {
    JoinChars(pieces, ',', '}');
    if pieces != [] { SplitJoin(pieces, ','); }
  }

  /** The label text of any list of clean labels, also of the empty one. */
  lemma ReadJoined(labels: seq<Label>)
    requires forall i :: 0 <= i < |labels| ==> CleanLabel(labels[i])
    ensures ReadLabels(Split(Join(LabelTexts(labels), ','), ',')) == labels && '}' !in Join(LabelTexts(labels), ',')
  {
    forall i | 0 <= i < |labels| ensures OnePiece(LabelTexts(labels)[i]) { LabelTextsOnePiece(labels, i); }
    SplitPieces(LabelTexts(labels));
    ReadLabelTexts(labels);
    assert [""][..0] == [];
  }

  lemma RenderClean(m: Metric)
    requires CleanMetric(m)
    ensures Parse(Render(m)) == Ok(m)
  {
    var labels := Join(LabelTexts(m.labels), ',');
    ReadJoined(m.labels);
    SplitOnceOf(m.name, '{', labels + "}" + (" " + m.value));
    SplitOnceOf(labels, '}', " " + m.value);
    StripPadded(" ", m.value, "", IsSpace);
    assert " " + m.value + "" == " " + m.value;
  }

  /** A printed line is read back as it was exactly when the metric is clean, for any number of labels. */
  lemma RoundTripIff(m: Metric)
    ensures Parse(Render(m)) == Ok(m) <==> CleanMetric(m)
  {
    if CleanMetric(m) {
      RenderClean(m);
    } else if Parse(Render(m)).Ok? {
      ParsedIsClean(Render(m));
    }
  }
}
