/**
  A whole run of `smartmon.py`, from the list of devices to the registry: when it raises, and when the registry
  says what the devices said.
*/
module SmartRun {
  import opened Prelude
  import opened PyText
  import opened MetricText
  import opened MetricExport
  import opened MetricErrors
  import opened SmartNames
  import opened SmartValues
  import opened SmartDevices
  import opened SmartExport
  import opened SmartRegistry

  /** A run ends before anything is written, or when the writer raises. */
  datatype RunError = ReportFailed(report: ReportError) | WriteFailed(write: ExportError)

  ghost function Emitted(env: Settings, version: string, inputs: seq<Input>, format: Num -> string): seq<Metric> {
    ToMetrics(AllSamples(env, version, inputs), format)
  }

  /** The first device that raises ends the run; otherwise everything emitted is written. */
  ghost function Run<V>(env: Settings, version: string, inputs: seq<Input>, format: Num -> string, w: Writer<V>)
    : Result<Registry<V>, RunError>
  {
    var failed := FirstError(env, inputs);
    if failed.Some? then Err(ReportFailed(failed.value))
    else
      var written := Export(Lines(Emitted(env, version, inputs, format)), w);
      if written.Err? then Err(WriteFailed(written.error)) else Ok(written.value)
  }

  method PrintLines(samples: seq<Sample>, format: Num -> string) returns (lines: seq<string>)
    ensures lines == Lines(ToMetrics(samples, format))
  {
    lines := [];
    ghost var ms := ToMetrics(samples, format);
    for i := 0 to |samples|
      invariant lines == Lines(ms[..i])
    {
      assert ms[..i + 1][..i] == ms[..i] && ms[..i + 1][i] == ToMetric(samples[i], format);
      lines := lines + [Render(ToMetric(samples[i], format))];
    }
    assert ms[..|samples|] == ms;
  }

  method RunScript<V>(env: Settings, version: string, inputs: seq<Input>, format: Num -> string, w: Writer<V>)
    returns (r: Result<Registry<V>, RunError>)
    ensures r == Run(env, version, inputs, format, w)
  {
    var samples := CollectAll(env, version, inputs);
    if samples.Err? {
      return Err(ReportFailed(samples.error));
    }
    var lines := PrintLines(samples.value, format);
    var written := WriteMetrics(lines, w);
    r := if written.Err? then Err(WriteFailed(written.error)) else Ok(written.value);
  }

  // -----------------------------------------------------------------------------------------------
  // What the writer is given
  // -----------------------------------------------------------------------------------------------

  /** Numbers are printed without blanks around them and read as numbers again; a text with a brace is no number. */
  ghost predicate Printable<V>(format: Num -> string, w: Writer<V>) {
    && (forall v :: Bare(format(v), IsSpace) && w.toFloat(format(v)).Some?)
    && BracesAreNoNumbers(w)
  }

  /** Every metric of the script may be a gauge with its own keys. */
  ghost predicate SchemasAccepted<V>(w: Writer<V>) {
    forall id :: Known(SMARTMON_ATTRS, id) ==> w.accepts(MetricName(id), Schema(id))
  }

  predicate BraceFree(v: string) {
    '}' !in v
  }

  lemma SameIdSameKeys(a: Sample, b: Sample)
    requires Fits(a) && Fits(b) && MetricName(a.id) == MetricName(b.id)
    ensures Keys(a.labels) == Keys(b.labels)
  {
    MetricNameInjective(a.id, b.id);
  }

  lemma FittingSameKeys(samples: seq<Sample>, format: Num -> string)
    requires AllFit(samples)
    ensures SameKeys(ToMetrics(samples, format))
  {
    var ms := ToMetrics(samples, format);
    forall i, j | 0 <= i < |ms| && 0 <= j < |ms| && ms[i].name == ms[j].name
        ensures Keys(ms[i].labels) == Keys(ms[j].labels) {
      FitsAt(samples, i);
      FitsAt(samples, j);
      SameIdSameKeys(samples[i], samples[j]);
    }
  }

  lemma FittingPlain<V>(samples: seq<Sample>, format: Num -> string, w: Writer<V>)
    requires AllFit(samples) && Printable(format, w) && SchemasAccepted(w)
    ensures AllPlain(ToMetrics(samples, format)) && AllAccepted(ToMetrics(samples, format), w)
    ensures NumbersPrinted(ToMetrics(samples, format), w)
  {
    var ms := ToMetrics(samples, format);
    forall i | 0 <= i < |samples| ensures Plain(ms[i]) && w.accepts(ms[i].name, Keys(ms[i].labels)) {
      FitsAt(samples, i);
      MetricNamePlain(samples[i].id);
    }
  }

  /** Checks on the label values of the metrics are checks on the samples. */
  lemma ValuesOfMetrics(samples: seq<Sample>, format: Num -> string, q: Check)
    ensures AllPass(samples, q)
            <==> forall i :: 0 <= i < |samples| ==> ValuesPass(ToMetrics(samples, format)[i].labels, q)
  {
    AllIndexed(samples, Passes(q));
    assert forall i :: 0 <= i < |samples| ==>
        (Passes(q)(samples[i]) <==> ValuesPass(ToMetrics(samples, format)[i].labels, q));
  }

  lemma ChecksOfMetrics(samples: seq<Sample>, format: Num -> string)
    ensures NoBraces(ToMetrics(samples, format)) <==> AllPass(samples, BraceFree)
    ensures NoneAltered(ToMetrics(samples, format)) <==> AllPass(samples, Unaltered)
  {
    var ms := ToMetrics(samples, format);
    ValuesOfMetrics(samples, format, BraceFree);
    ValuesOfMetrics(samples, format, Unaltered);
    assert forall i :: 0 <= i < |ms| ==> (NoBrace(ms[i].labels) <==> ValuesPass(ms[i].labels, BraceFree));
    assert NoneAltered(ms) <==> forall i :: 0 <= i < |ms| ==> ValuesPass(ms[i].labels, Unaltered);
  }

  lemma NonePasses()
    ensures BraceFree("None") && Unaltered("None")
  {
  }

  /** What is emitted can be printed, and its label values are the texts of the version and of the devices. */
  lemma EmittedTexts<V>(ratings: map<string, real>, parse: string -> Option<real>, version: string, inputs: seq<Input>,
                        format: Num -> string, w: Writer<V>)
    requires Printable(format, w) && SchemasAccepted(w)
    ensures var ms := Emitted(ScriptSettings(ratings, parse), version, inputs, format);
            && AllPlain(ms) && AllAccepted(ms, w) && NumbersPrinted(ms, w) && SameKeys(ms)
            && (NoBraces(ms) <==> AllTextsPass(version, inputs, BraceFree))
            && (NoneAltered(ms) <==> AllTextsPass(version, inputs, Unaltered))
  {
    var samples := AllSamples(ScriptSettings(ratings, parse), version, inputs);
    NonePasses();
    AllSamplesFit(ratings, parse, version, inputs, BraceFree);
    AllSamplesFit(ratings, parse, version, inputs, Unaltered);
    FittingPlain(samples, format, w);
    FittingSameKeys(samples, format);
    ChecksOfMetrics(samples, format);
  }

  // -----------------------------------------------------------------------------------------------
  // The outcome of a run
  // -----------------------------------------------------------------------------------------------

  /** Lines of one metric are read with the same number of labels, and the keys first read for it may make a gauge. */
  ghost predicate Consistent<V>(ms: seq<Metric>, w: Writer<V>) {
    SameCounts(ms) && FirstAccepted(ms, w)
  }

  /**
    A run raises exactly when a device raises, a text has a closing brace, or commas in the texts make lines of one
    metric differ in their number of labels or a gauge have keys it may not.
  */
  lemma RunRaisesIff<V>(ratings: map<string, real>, parse: string -> Option<real>, version: string, inputs: seq<Input>,
                        format: Num -> string, w: Writer<V>)
    requires Printable(format, w) && SchemasAccepted(w)
    ensures var env := ScriptSettings(ratings, parse);
            Run(env, version, inputs, format, w).Err? <==>
            || FirstError(env, inputs).Some?
            || !AllTextsPass(version, inputs, BraceFree)
            || !Consistent(Emitted(env, version, inputs, format), w)
  {
    EmittedTexts(ratings, parse, version, inputs, format, w);
    ExportRaisesIff(Emitted(ScriptSettings(ratings, parse), version, inputs, format), w);
  }

  /** The run ends without an error, and the registry holds what was emitted. */
  ghost predicate RunsFaithfully<V>(env: Settings, version: string, inputs: seq<Input>, format: Num -> string,
                                    w: Writer<V>) {
    var r := Run(env, version, inputs, format, w);
    r.Ok? && Faithful(r.value, Emitted(env, version, inputs, format), w)
  }

  /**
    The registry holds, for every metric name and labels, the last value that was emitted, and nothing else,
    exactly when no device raises and no text of the version or of a reported device has a brace, a comma, or a
    quote at an end.
  */
  lemma RunFaithfulIff<V>(ratings: map<string, real>, parse: string -> Option<real>, version: string,
                          inputs: seq<Input>, format: Num -> string, w: Writer<V>)
    requires Printable(format, w) && SchemasAccepted(w)
    ensures var env := ScriptSettings(ratings, parse);
            RunsFaithfully(env, version, inputs, format, w) <==>
            && FirstError(env, inputs).None?
            && AllTextsPass(version, inputs, BraceFree) && AllTextsPass(version, inputs, Unaltered)
  {
    var ms := Emitted(ScriptSettings(ratings, parse), version, inputs, format);
    EmittedTexts(ratings, parse, version, inputs, format, w);
    ExportFaithfulIff(ms, w);
    CleanIff(ms);
  }

  /**
    A run that raises nothing leaves something else in the registry exactly when a text has a comma, or a quote at an
    end.
  */
  lemma SilentlyWrongIff<V>(ratings: map<string, real>, parse: string -> Option<real>, version: string,
                            inputs: seq<Input>, format: Num -> string, w: Writer<V>)
    requires Printable(format, w) && SchemasAccepted(w)
    requires Run(ScriptSettings(ratings, parse), version, inputs, format, w).Ok?
    ensures RunsFaithfully(ScriptSettings(ratings, parse), version, inputs, format, w)
            <==> AllTextsPass(version, inputs, Unaltered)
  {
    RunRaisesIff(ratings, parse, version, inputs, format, w);
    RunFaithfulIff(ratings, parse, version, inputs, format, w);
  }
}
