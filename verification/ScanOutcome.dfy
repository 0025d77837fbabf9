/** What every run of the scan dispatcher comes to. */
module ScanOutcome {
  import opened ScanVerdict
  import opened ScanDispatcher

  // -----------------------------------------------------------------------------------------------
  // Stopping after a failure
  // -----------------------------------------------------------------------------------------------

  /** How many scans the run starts when a failure is already recorded. */
  ghost function LateStarts(c: Config, run: seq<Event>): nat {
    if run == [] then 0
    else
      var before := run[..|run| - 1];
      LateStarts(c, before) + if run[|run| - 1] == Start && After(c, before).Failures() != [] then 1 else 0
  }

  lemma {:induction false} LateStartsStop(c: Config, run: seq<Event>)
    requires IsRun(c, run)
    ensures var s := After(c, run);
            LateStarts(c, run) == 0 || (LateStarts(c, run) == 1 && s.Failures() != [] && !s.pc.StartScan?)
  {
    if run != [] {
      LateStartsStop(c, run[..|run| - 1]);
    }
  }

  /** At most one scan starts after the first failure is recorded, over every run. */
  lemma AtMostOneLateStart(c: Config, run: seq<Event>)
    requires IsRun(c, run)
    ensures LateStarts(c, run) <= 1
  {
    LateStartsStop(c, run);
  }

  lemma {:induction false} AfterMore(c: Config, run: seq<Event>, e: Event)
    ensures After(c, run + [e]) == Apply(c, After(c, run), e)
    ensures IsRun(c, run + [e]) <==> IsRun(c, run) && Enabled(c, After(c, run), e)
    ensures LateStarts(c, run + [e]) == LateStarts(c, run) + if e == Start && After(c, run).Failures() != [] then 1
            else 0
  {
    assert (run + [e])[..|run|] == run;
  }

  /** With one slot no failure can be recorded between the check and the start. */
  lemma {:induction false} OneSlotNoLateStart(c: Config, run: seq<Event>)
    requires IsRun(c, run) && c.parallelism <= 1
    ensures After(c, run).pc.StartScan? ==> After(c, run).Failures() == []
    ensures LateStarts(c, run) == 0
  {
    if run != [] {
      var before := run[..|run| - 1];
      OneSlotNoLateStart(c, before);
      Reachable(c, before);
      var s := After(c, before);
      assert s.pc.StartScan? ==> Running(s) == 0 && s.scanning == {};
    }
  }

  /** Where a scan can be started late, an image before the last one fails. */
  lemma {:induction false} LateStartNeedsFailure(c: Config, run: seq<Event>)
    requires IsRun(c, run) && LateStarts(c, run) > 0
    ensures exists i :: 0 <= i < |c.verdicts| - 1 && c.verdicts[i] == Verdict.Failed
  {
    var before := run[..|run| - 1];
    if LateStarts(c, before) > 0 {
      LateStartNeedsFailure(c, before);
    } else {
      var s := After(c, before);
      Reachable(c, before);
      var i := s.Failures()[0];
      assert AllHave(c, s.files(Verdict.Failed), Verdict.Failed) && i in s.Failures();
      assert i in Results(s);
      assert i in multiset(Positions(0, s.next));
    }
  }

  /** The dispatcher is idle at image `i`, with no failure so far. */
  ghost predicate IdleAt(c: Config, run: seq<Event>, i: nat) {
    var s := After(c, run);
    IsRun(c, run) && LateStarts(c, run) == 0 && s.pc.WaitForSlot? && s.next == i && s.scanning == {} && s.ending == {}
        && s.Failures() == []
  }

  /** One image is scanned from start to end, and does not fail. */
  lemma ScanOne(c: Config, run: seq<Event>, i: nat) returns (longer: seq<Event>)
    requires IdleAt(c, run, i) && i < |c.verdicts| && c.verdicts[i] != Verdict.Failed && c.parallelism >= 1
    ensures IdleAt(c, longer, i + 1)
  {
    var r1 := run + [SlotFree];
    var r2 := r1 + [SeeNoFailure];
    var r3 := r2 + [Start];
    var r4 := r3 + [Record(i)];
    longer := r4 + [End(i)];
    AfterMore(c, run, SlotFree);
    AfterMore(c, r1, SeeNoFailure);
    AfterMore(c, r2, Start);
    AfterMore(c, r3, Record(i));
    AfterMore(c, r4, End(i));
  }

  lemma {:induction false} ScanUpTo(c: Config, i: nat) returns (run: seq<Event>)
    requires i <= |c.verdicts| && c.parallelism >= 1 && forall j :: 0 <= j < i ==> c.verdicts[j] != Verdict.Failed
    ensures IdleAt(c, run, i)
  {
    if i == 0 {
      run := [];
    } else {
      var before := ScanUpTo(c, i - 1);
      run := ScanOne(c, before, i - 1);
    }
  }

  /** A running scan fails between the check and the start of the next one. */
  lemma FailInBetween(c: Config, run: seq<Event>, i: nat) returns (longer: seq<Event>)
    requires IdleAt(c, run, i) && i < |c.verdicts| - 1 && c.verdicts[i] == Verdict.Failed && c.parallelism >= 2
    ensures IsRun(c, longer) && LateStarts(c, longer) == 1
  {
    var r1 := run + [SlotFree];
    var r2 := r1 + [SeeNoFailure];
    var r3 := r2 + [Start];
    var r4 := r3 + [SlotFree];
    var r5 := r4 + [SeeNoFailure];
    var r6 := r5 + [Record(i)];
    longer := r6 + [Start];
    AfterMore(c, run, SlotFree);
    AfterMore(c, r1, SeeNoFailure);
    AfterMore(c, r2, Start);
    AfterMore(c, r3, SlotFree);
    AfterMore(c, r4, SeeNoFailure);
    AfterMore(c, r5, Record(i));
    AfterMore(c, r6, Start);
  }

  lemma {:induction false} FirstFailure(c: Config, i: nat) returns (first: nat)
    requires i < |c.verdicts| && c.verdicts[i] == Verdict.Failed
    ensures first <= i && c.verdicts[first] == Verdict.Failed
    ensures forall j :: 0 <= j < first ==> c.verdicts[j] != Verdict.Failed
  {
    if j :| 0 <= j < i && c.verdicts[j] == Verdict.Failed {
      first := FirstFailure(c, j);
    } else {
      first := i;
    }
  }

  /** A late start is possible exactly when two scans may run at once and an image before the last one fails. */
  lemma LateStartPossibleIff(c: Config)
    ensures (exists run :: IsRun(c, run) && LateStarts(c, run) == 1)
       <==> c.parallelism >= 2 && exists i :: 0 <= i < |c.verdicts| - 1 && c.verdicts[i] == Verdict.Failed
  {
    if run :| IsRun(c, run) && LateStarts(c, run) == 1 {
      LateStartNeedsFailure(c, run);
      if c.parallelism <= 1 {
        OneSlotNoLateStart(c, run);
      }
    }
    if i :| c.parallelism >= 2 && 0 <= i < |c.verdicts| - 1 && c.verdicts[i] == Verdict.Failed {
      var first := FirstFailure(c, i);
      var before := ScanUpTo(c, first);
      var run := FailInBetween(c, before, first);
    }
  }

  // -----------------------------------------------------------------------------------------------
  // Termination
  // -----------------------------------------------------------------------------------------------

  ghost function PcWeight(pc: Pc): nat {
    match pc
    case WaitForSlot => 3
    case CheckFailed => 2
    case StartScan => 1
    case FinalWait => 1
    case Exited(_) => 0
  }

  /** The work left. */
  ghost function Weight(c: Config, s: State): nat
    requires s.next <= |c.verdicts|
  {
    5 * (|c.verdicts| - s.next) + 2 * |s.scanning| + |s.ending| + PcWeight(s.pc)
  }

  lemma RecordLessWork(c: Config, s: State, i: nat, v: Verdict)
    requires s.next <= |c.verdicts| && i in s.scanning
    ensures Recorded(s, i, v).next == s.next && Weight(c, Recorded(s, i, v)) < Weight(c, s)
  {
    assert |s.scanning - {i}| == |s.scanning| - 1 && |s.ending + {i}| <= |s.ending| + 1;
  }

  lemma StepLessWork(c: Config, s: State, e: Event)
    requires Inv(c, s) && Enabled(c, s, e)
    ensures Apply(c, s, e).next <= |c.verdicts| && Weight(c, Apply(c, s, e)) < Weight(c, s)
  {
    match e
    case Record(i) => RecordLessWork(c, s, i, if i < |c.verdicts| then c.verdicts[i] else Verdict.Failed);
    case End(i) => assert |s.ending - {i}| == |s.ending| - 1;
    case _ =>
  }

  /** No run is longer than five steps for each image, and three more. */
  lemma {:induction false} RunsAreBounded(c: Config, run: seq<Event>)
    requires IsRun(c, run)
    ensures After(c, run).next <= |c.verdicts| && |run| + Weight(c, After(c, run)) <= 5 * |c.verdicts| + 3
  {
    if run != [] {
      var before := run[..|run| - 1];
      RunsAreBounded(c, before);
      Reachable(c, before);
      StepLessWork(c, After(c, before), run[|run| - 1]);
    }
  }

  /** Until the dispatcher exits, some step can happen. */
  lemma SomeStep(c: Config, s: State) returns (e: Event)
    requires Inv(c, s) && c.parallelism >= 1 && !s.pc.Exited?
    ensures Enabled(c, s, e)
  {
    if i :| i in s.scanning {
      e := Record(i);
    } else if i :| i in s.ending {
      e := End(i);
    } else {
      assert s.scanning == {} && s.ending == {};
      e := match s.pc
        case WaitForSlot => if s.next < |c.verdicts| then SlotFree else ListDone
        case CheckFailed => if s.Failures() != [] then SeeFailure else SeeNoFailure
        case StartScan => Start
        case _ => AllEnded;
    }
  }

  /** A run that cannot go on has exited. */
  ghost predicate Complete(c: Config, run: seq<Event>) {
    IsRun(c, run) && forall e :: !Enabled(c, After(c, run), e)
  }

  lemma CompleteExits(c: Config, run: seq<Event>)
    requires Complete(c, run) && c.parallelism >= 1
    ensures After(c, run).pc.Exited?
  {
    Reachable(c, run);
    if !After(c, run).pc.Exited? {
      var e := SomeStep(c, After(c, run));
    }
  }

  // -----------------------------------------------------------------------------------------------
  // The outcome
  // -----------------------------------------------------------------------------------------------

  lemma {:induction false} PositionsCount(a: nat, b: nat, i: nat)
    requires a <= b
    ensures multiset(Positions(a, b))[i] == if a <= i < b then 1 else 0
    decreases b - a
  {
    if a < b {
      assert Positions(a, b) == [a] + Positions(a + 1, b);
      PositionsCount(a + 1, b, i);
    }
  }

  /** Where the dispatcher exits with 0, each file holds exactly the images with its verdict, once each. */
  lemma FilesOnSuccess(c: Config, s: State, i: nat, v: Verdict)
    requires Inv(c, s) && s.pc == Exited(0)
    ensures multiset(s.files(v))[i] == if i < |c.verdicts| && c.verdicts[i] == v then 1 else 0
  {
    assert s.scanning == {};
    PositionsCount(0, |c.verdicts|, i);
    assert Results(s)[i] == if i < |c.verdicts| then 1 else 0;
    assert forall w: Verdict :: AllHave(c, s.files(w), w);
  }

  /** The exit code is 1 when some image in the list has a failing scan, and 0 otherwise, over every run. */
  lemma ExitCodeDetermined(c: Config, run: seq<Event>)
    requires IsRun(c, run) && After(c, run).pc.Exited?
    ensures After(c, run).pc.code == if Verdict.Failed in c.verdicts then 1 else 0
  {
    var s := After(c, run);
    Reachable(c, run);
    if s.Failures() != [] {
      assert AllHave(c, s.files(Verdict.Failed), Verdict.Failed);
      assert s.Failures()[0] in s.Failures();
    } else if i :| 0 <= i < |c.verdicts| && c.verdicts[i] == Verdict.Failed {
      FilesOnSuccess(c, s, i, Verdict.Failed);
    }
  }

  /** However the scans interleave, complete runs agree on the exit code and, on success, on every file. */
  lemma OutcomeIndependentOfInterleaving(c: Config, run: seq<Event>, other: seq<Event>, v: Verdict)
    requires Complete(c, run) && Complete(c, other) && c.parallelism >= 1
    ensures After(c, run).pc == After(c, other).pc
    ensures After(c, run).pc == Exited(0) ==> multiset(After(c, run).files(v)) == multiset(After(c, other).files(v))
  {
    CompleteExits(c, run);
    CompleteExits(c, other);
    ExitCodeDetermined(c, run);
    ExitCodeDetermined(c, other);
    Reachable(c, run);
    Reachable(c, other);
    var s, t := After(c, run), After(c, other);
    if s.pc == Exited(0) {
      forall i: nat ensures multiset(s.files(v))[i] == multiset(t.files(v))[i] {
        FilesOnSuccess(c, s, i, v);
        FilesOnSuccess(c, t, i, v);
      }
    }
  }

  // -----------------------------------------------------------------------------------------------
  // The names in the files
  // -----------------------------------------------------------------------------------------------

  ghost predicate Within<T>(images: seq<T>, list: seq<nat>) {
    forall k :: 0 <= k < |list| ==> list[k] < |images|
  }

  /** The image names at the positions, with repetitions: what a result file holds. */
  ghost function NamesAt<T>(images: seq<T>, list: seq<nat>): multiset<T>
    requires Within(images, list)
  {
    if list == [] then multiset{} else NamesAt(images, list[..|list| - 1]) + multiset{images[list[|list| - 1]]}
  }

  lemma NamesAtAppend<T>(images: seq<T>, a: seq<nat>, i: nat)
    requires Within(images, a) && i < |images|
    ensures Within(images, a + [i]) && NamesAt(images, a + [i]) == NamesAt(images, a) + multiset{images[i]}
  {
    assert (a + [i])[..|a|] == a;
  }

  lemma WithinLast<T>(images: seq<T>, list: seq<nat>)
    requires Within(images, list) && list != []
    ensures Within(images, list[..|list| - 1]) && list[|list| - 1] < |images|
    ensures list == list[..|list| - 1] + [list[|list| - 1]]
  {
  }

  lemma AddAssociative<T>(a: multiset<T>, b: multiset<T>, c: multiset<T>)
    ensures a + b + c == a + (b + c)
  {
  }

  lemma AddSwapped<T>(a: multiset<T>, b: multiset<T>, c: multiset<T>)
    ensures a + (b + c) == a + c + b
  {
  }

  lemma LastApart<T>(a: seq<T>, b: seq<T>, x: T)
    ensures a + (b + [x]) == a + b + [x]
  {
  }

  lemma NamesStep<T>(images: seq<T>, a: seq<nat>, b: seq<nat>, i: nat)
    requires Within(images, a) && Within(images, b) && Within(images, a + b) && i < |images|
    requires NamesAt(images, a + b) == NamesAt(images, a) + NamesAt(images, b)
    ensures Within(images, b + [i]) && Within(images, a + (b + [i]))
    ensures NamesAt(images, a + (b + [i])) == NamesAt(images, a) + NamesAt(images, b + [i])
  {
    NamesAtAppend(images, a + b, i);
    NamesAtAppend(images, b, i);
    LastApart(a, b, i);
    AddAssociative(NamesAt(images, a), NamesAt(images, b), multiset{images[i]});
  }

  lemma {:induction false} NamesAtConcat<T>(images: seq<T>, a: seq<nat>, b: seq<nat>)
    requires Within(images, a) && Within(images, b)
    ensures Within(images, a + b) && NamesAt(images, a + b) == NamesAt(images, a) + NamesAt(images, b)
  {
    if b == [] {
      assert a + b == a;
    } else {
      WithinLast(images, b);
      NamesAtConcat(images, a, b[..|b| - 1]);
      NamesStep(images, a, b[..|b| - 1], b[|b| - 1]);
    }
  }

  lemma NamesAtOne<T>(images: seq<T>, i: nat)
    requires i < |images|
    ensures Within(images, [i]) && NamesAt(images, [i]) == multiset{images[i]}
  {
    assert [i][..0] == [];
  }

  /** Taking one position out takes one name out. */
  lemma NamesWithout<T>(images: seq<T>, b: seq<nat>, k: nat) returns (rest: seq<nat>)
    requires Within(images, b) && k < |b|
    ensures Within(images, rest) && |rest| < |b| && multiset(rest) == multiset(b) - multiset{b[k]}
    ensures NamesAt(images, b) == NamesAt(images, rest) + multiset{images[b[k]]}
  {
    var l, r := b[..k], b[k + 1..];
    rest := l + r;
    assert b == l + ([b[k]] + r);
    NamesAtOne(images, b[k]);
    NamesAtConcat(images, [b[k]], r);
    NamesAtConcat(images, l, [b[k]] + r);
    NamesAtConcat(images, l, r);
    AddSwapped(NamesAt(images, l), multiset{images[b[k]]}, NamesAt(images, r));
  }

  lemma {:induction false} NamesAtSame<T>(images: seq<T>, a: seq<nat>, b: seq<nat>)
    requires Within(images, a) && Within(images, b) && multiset(a) == multiset(b)
    ensures NamesAt(images, a) == NamesAt(images, b)
    decreases |a|
  {
    if a == [] {
      assert |multiset(b)| == 0;
    } else {
      assert a[0] in multiset(b);
      var k :| 0 <= k < |b| && b[k] == a[0];
      var ra := NamesWithout(images, a, 0);
      var rb := NamesWithout(images, b, k);
      NamesAtSame(images, ra, rb);
    }
  }

  lemma PositionsNext(n: nat)
    ensures Positions(0, n + 1) == Positions(0, n) + [n]
  {
  }

  lemma TakeNext<T>(s: seq<T>, n: nat)
    requires n < |s|
    ensures multiset(s[..n + 1]) == multiset(s[..n]) + multiset{s[n]}
  {
    assert s[..n + 1] == s[..n] + [s[n]];
  }

  lemma {:induction false} NamesAtAll<T>(images: seq<T>, n: nat)
    requires n <= |images|
    ensures Within(images, Positions(0, n)) && NamesAt(images, Positions(0, n)) == multiset(images[..n])
  {
    if n > 0 {
      NamesAtAll(images, n - 1);
      NamesAtAppend(images, Positions(0, n - 1), n - 1);
      PositionsNext(n - 1);
      TakeNext(images, n - 1);
    }
  }

  /** On success the list of images is, as a multiset, what the clean, high and critical files hold together. */
  lemma ImagesAccountedFor<T>(c: Config, run: seq<Event>, images: seq<T>)
    requires IsRun(c, run) && After(c, run).pc == Exited(0) && |images| == |c.verdicts|
    ensures var s := After(c, run);
            Within(images, s.files(Clean)) && Within(images, s.files(High)) && Within(images, s.files(Critical))
                && s.Failures() == [] &&
            multiset(images) == NamesAt(images, s.files(Clean)) + NamesAt(images, s.files(High))
                + NamesAt(images, s.files(Critical))
  {
    var s := After(c, run);
    Reachable(c, run);
    SuccessFiles(images, c, s);
  }

  lemma SuccessFiles<T>(images: seq<T>, c: Config, s: State)
    requires Inv(c, s) && s.pc == Exited(0) && |images| == |c.verdicts|
    ensures Within(images, s.files(Clean)) && Within(images, s.files(High)) && Within(images, s.files(Critical))
            && s.Failures() == []
    ensures multiset(images) == NamesAt(images, s.files(Clean)) + NamesAt(images, s.files(High))
            + NamesAt(images, s.files(Critical))
  {
    assert s.scanning == {} && s.Failures() == [];
    WithinFile(images, c, s, Clean);
    WithinFile(images, c, s, High);
    WithinFile(images, c, s, Critical);
    ThreeFiles(images, s.files(Clean), s.files(High), s.files(Critical));
  }

  lemma WithinFile<T>(images: seq<T>, c: Config, s: State, v: Verdict)
    requires Faithful(c, s) && |images| == |c.verdicts|
    ensures Within(images, s.files(v))
  {
    assert AllHave(c, s.files(v), v);
    assert forall k :: 0 <= k < |s.files(v)| ==> s.files(v)[k] in s.files(v);
  }

  lemma ThreeFiles<T>(images: seq<T>, a: seq<nat>, b: seq<nat>, d: seq<nat>)
    requires Within(images, a) && Within(images, b) && Within(images, d)
    requires multiset(Positions(0, |images|)) == multiset(a) + multiset(b) + multiset(d)
    ensures multiset(images) == NamesAt(images, a) + NamesAt(images, b) + NamesAt(images, d)
  {
    NamesAtConcat(images, a, b);
    NamesAtConcat(images, a + b, d);
    NamesAtSame(images, Positions(0, |images|), a + b + d);
    NamesAtAll(images, |images|);
    assert images[..|images|] == images;
  }

  /** The verdicts of a list of scan reports. */
  ghost function ConfigOf(reports: seq<Report>, parallelism: nat): Config {
    Config(seq(|reports|, i requires 0 <= i < |reports| => VerdictOf(reports[i])), parallelism)
  }

  /** A run that exits does so with 1 exactly when some scan of the list fails, whatever the interleaving. */
  lemma ReportsDecideExit(reports: seq<Report>, parallelism: nat, run: seq<Event>)
    requires IsRun(ConfigOf(reports, parallelism), run) && After(ConfigOf(reports, parallelism), run).pc.Exited?
    ensures After(ConfigOf(reports, parallelism), run).pc.code == 1
            <==> exists i :: 0 <= i < |reports| && ScanFails(reports[i])
    ensures After(ConfigOf(reports, parallelism), run).pc.code == 0 <==>
            forall i :: 0 <= i < |reports|
                ==> reports[i].sbom && (reports[i].code == 0 || (reports[i].code == 2 && reports[i].processed))
  {
    var c := ConfigOf(reports, parallelism);
    ExitCodeDetermined(c, run);
    forall i | 0 <= i < |reports| ensures c.verdicts[i] == Verdict.Failed <==> ScanFails(reports[i]) {
      VerdictIff(reports[i]);
    }
  }

  /** On success the critical and the high file hold the images whose reports say so, and no others. */
  lemma SevereFilesExact(reports: seq<Report>, parallelism: nat, run: seq<Event>, i: nat)
    requires IsRun(ConfigOf(reports, parallelism), run) && i < |reports|
    requires After(ConfigOf(reports, parallelism), run).pc == Exited(0)
    ensures var s := After(ConfigOf(reports, parallelism), run);
            var severe := reports[i].code == 2 && !NoneSurvives(reports[i]);
            && (i in s.files(Critical) <==> severe && ReportSays(reports[i].matches))
            && (i in s.files(High) <==> severe && !ReportSays(reports[i].matches))
  {
    var c := ConfigOf(reports, parallelism);
    Reachable(c, run);
    ReportsDecideExit(reports, parallelism, run);
    FilesOnSuccess(c, After(c, run), i, Critical);
    FilesOnSuccess(c, After(c, run), i, High);
    VerdictIff(reports[i]);
    assert c.verdicts[i] == VerdictOf(reports[i]) && !ScanFails(reports[i]);
  }

  /**
    On success an image is in the clean file exactly when its scan found nothing, or nothing that survives the
    filters.
  */
  lemma CleanFileExact(reports: seq<Report>, parallelism: nat, run: seq<Event>, i: nat)
    requires IsRun(ConfigOf(reports, parallelism), run) && i < |reports|
    requires After(ConfigOf(reports, parallelism), run).pc == Exited(0)
    ensures i in After(ConfigOf(reports, parallelism), run).files(Clean) <==>
            reports[i].code == 0 || forall m :: m in reports[i].matches ==> !Survives(m)
  {
    var c, r := ConfigOf(reports, parallelism), reports[i];
    var s := After(c, run);
    Reachable(c, run);
    FilesOnSuccess(c, s, i, Clean);
    FilesOnSuccess(c, s, i, Verdict.Failed);
    assert c.verdicts[i] == VerdictOf(r) && s.Failures() == [];
    assert multiset(s.Failures())[i] == 0;
    if r.code != 0 {
      CleanIffNoneSurvives(r);
    }
  }
}
