/**
  The parallel dispatcher of `scan-images.sh` as a transition system. Scans are named by the position of
  their image in the list. Checking for a failure and starting a scan are separate steps, and so are
  recording the result of a scan and the end of its job, with any other steps in between.
*/
module ScanDispatcher {
  import opened ScanVerdict

  /** Where the dispatcher is in its loop. */
  datatype Pc = WaitForSlot | CheckFailed | StartScan | FinalWait | Exited(code: nat)

  /** The verdict that the scan of each image in the list comes to, and the number of scans that may run at once. */
  datatype Config = Config(verdicts: seq<Verdict>, parallelism: nat)

  /** The result files: the images of each verdict, in the order they were recorded. */
  type Files = Verdict -> seq<nat>

  /** `scanning` jobs have not recorded a result; `ending` jobs have, but have not ended. */
  datatype State = State(pc: Pc, next: nat, scanning: set<nat>, ending: set<nat>, files: Files) {
    /** The scan failures recorded so far. */
    function Failures(): seq<nat> {
      files(Verdict.Failed)
    }
  }

  /** A step of the dispatcher, or of the job of one scan. */
  datatype Event = SlotFree | ListDone | SeeFailure | SeeNoFailure | Start | AllEnded | Record(i: nat) | End(i: nat)

  const INIT := State(WaitForSlot, 0, {}, {}, _ => [])

  function Running(s: State): nat {
    |s.scanning| + |s.ending|
  }

  predicate Enabled(c: Config, s: State, e: Event) {
    match e
    case SlotFree => s.pc.WaitForSlot? && s.next < |c.verdicts| && Running(s) < c.parallelism
    case ListDone => s.pc.WaitForSlot? && s.next == |c.verdicts|
    case SeeFailure => s.pc.CheckFailed? && s.Failures() != []
    case SeeNoFailure => s.pc.CheckFailed? && s.Failures() == []
    case Start => s.pc.StartScan?
    case AllEnded => s.pc.FinalWait? && Running(s) == 0
    case Record(i) => i in s.scanning
    case End(i) => i in s.ending
  }

  /** The job of scan `i` appends the image to the file of its verdict. */
  function Recorded(s: State, i: nat, v: Verdict): State {
    s.(scanning := s.scanning - {i}, ending := s.ending + {i}, files := w => if w == v then s.files(w) + [i]
       else s.files(w))
  }

  function Apply(c: Config, s: State, e: Event): State {
    match e
    case SlotFree => s.(pc := CheckFailed)
    case ListDone => s.(pc := FinalWait)
    case SeeFailure => s.(pc := FinalWait)
    case SeeNoFailure => s.(pc := StartScan)
    case Start => s.(pc := WaitForSlot, next := s.next + 1, scanning := s.scanning + {s.next})
    case AllEnded => s.(pc := Exited(if s.Failures() != [] then 1 else 0))
    case Record(i) => Recorded(s, i, if i < |c.verdicts| then c.verdicts[i] else Verdict.Failed)
    case End(i) => s.(ending := s.ending - {i})
  }

  /** The state after the events. */
  function After(c: Config, run: seq<Event>): State {
    if run == [] then INIT else Apply(c, After(c, run[..|run| - 1]), run[|run| - 1])
  }

  /** Every event of the run can happen when it does. */
  ghost predicate IsRun(c: Config, run: seq<Event>) {
    run != [] ==> IsRun(c, run[..|run| - 1]) && Enabled(c, After(c, run[..|run| - 1]), run[|run| - 1])
  }

  // -----------------------------------------------------------------------------------------------
  // What every reachable state satisfies
  // -----------------------------------------------------------------------------------------------

  /** The positions from `a` up to `b`. */
  ghost function Positions(a: nat, b: nat): (r: seq<nat>)
    requires a <= b
    ensures |r| == b - a && forall k :: 0 <= k < |r| ==> r[k] == a + k
  {
    seq(b - a, k => a + k)
  }

  /** The positions listed in the four result files. */
  ghost function Results(s: State): multiset<nat> {
    multiset(s.files(Clean)) + multiset(s.files(High)) + multiset(s.files(Critical)) + multiset(s.files(Verdict.Failed))
  }

  /** Every image is in exactly one place, and the images started are the first `next` of the list. */
  ghost predicate Conserved(c: Config, s: State) {
    && s.next <= |c.verdicts|
    && multiset(Positions(0, s.next)) == multiset(s.scanning) + Results(s)
  }

  ghost predicate AllHave(c: Config, list: seq<nat>, v: Verdict) {
    forall i :: i in list ==> i < |c.verdicts| && c.verdicts[i] == v
  }

  /** Each result file holds images with that verdict. */
  ghost predicate Faithful(c: Config, s: State) {
    forall v: Verdict :: AllHave(c, s.files(v), v)
  }

  /** At most `parallelism` scans run, and fewer while one is about to start. */
  ghost predicate Bounded(c: Config, s: State) {
    && Running(s) <= c.parallelism
    && (s.pc.CheckFailed? || s.pc.StartScan? ==> Running(s) < c.parallelism && s.next < |c.verdicts|)
  }

  /** The dispatcher leaves its loop at the end of the list or after a failure, and exits when no scan runs. */
  ghost predicate Settled(c: Config, s: State) {
    && (s.pc.FinalWait? || s.pc.Exited? ==> s.next == |c.verdicts| || s.Failures() != [])
    && (s.pc.Exited? ==> Running(s) == 0 && s.pc.code == if s.Failures() != [] then 1 else 0)
  }

  ghost predicate Inv(c: Config, s: State) {
    Conserved(c, s) && Faithful(c, s) && Bounded(c, s) && Settled(c, s)
  }

  lemma StartConserves(c: Config, s: State)
    requires Conserved(c, s) && s.next < |c.verdicts|
    ensures Conserved(c, Apply(c, s, Start)) && s.next !in s.scanning
  {
    assert Positions(0, s.next + 1) == Positions(0, s.next) + [s.next];
    assert s.next !in multiset(Positions(0, s.next));
    assert multiset(s.scanning + {s.next}) == multiset(s.scanning) + multiset{s.next};
  }

  lemma RecordedResults(s: State, i: nat, v: Verdict)
    ensures Results(Recorded(s, i, v)) == Results(s) + multiset{i}
  {
    match v
    case Clean =>
    case High =>
    case Critical =>
    case Failed =>
  }

  lemma RecordedRunning(s: State, i: nat, v: Verdict)
    requires i in s.scanning
    ensures multiset(Recorded(s, i, v).scanning) == multiset(s.scanning) - multiset{i}
    ensures Running(Recorded(s, i, v)) <= Running(s)
  {
    assert multiset(s.scanning - {i}) == multiset(s.scanning) - multiset{i};
    assert |s.scanning - {i}| == |s.scanning| - 1 && |s.ending + {i}| <= |s.ending| + 1;
  }

  lemma RecordedFaithful(c: Config, s: State, i: nat)
    requires Faithful(c, s) && i < |c.verdicts|
    ensures Faithful(c, Recorded(s, i, c.verdicts[i]))
  {
  }

  lemma ScanningStarted(c: Config, s: State, i: nat)
    requires Conserved(c, s) && i in s.scanning
    ensures i < s.next <= |c.verdicts|
  {
    assert i in multiset(Positions(0, s.next));
  }

  lemma RecordConserves(c: Config, s: State, i: nat, v: Verdict)
    requires Conserved(c, s) && i in s.scanning
    ensures Conserved(c, Recorded(s, i, v))
  {
    RecordedResults(s, i, v);
    RecordedRunning(s, i, v);
  }

  lemma RecordKeepsRest(c: Config, s: State, i: nat, v: Verdict)
    requires Bounded(c, s) && Settled(c, s) && i in s.scanning
    ensures Bounded(c, Recorded(s, i, v)) && Settled(c, Recorded(s, i, v))
  {
    RecordedRunning(s, i, v);
    var t := Recorded(s, i, v);
    assert t.pc == s.pc && t.next == s.next && (s.Failures() != [] ==> t.Failures() != []);
  }

  lemma RecordInv(c: Config, s: State, i: nat)
    requires Inv(c, s) && i in s.scanning
    ensures Inv(c, Apply(c, s, Record(i)))
  {
    ScanningStarted(c, s, i);
    var v := c.verdicts[i];
    var t := Recorded(s, i, v);
    assert Conserved(c, t) by { RecordConserves(c, s, i, v); }
    assert Faithful(c, t) by { RecordedFaithful(c, s, i); }
    assert Bounded(c, t) && Settled(c, t) by { RecordKeepsRest(c, s, i, v); }
  }

  lemma InvStep(c: Config, s: State, e: Event)
    requires Inv(c, s) && Enabled(c, s, e)
    ensures Inv(c, Apply(c, s, e))
  {
    match e
    case Start => StartConserves(c, s);
    case Record(i) => RecordInv(c, s, i);
    case _ =>
  }

  /** Every reachable state, over every interleaving, satisfies the invariant. */
  lemma {:induction false} Reachable(c: Config, run: seq<Event>)
    requires IsRun(c, run)
    ensures Inv(c, After(c, run))
  {
    if run != [] {
      Reachable(c, run[..|run| - 1]);
      InvStep(c, After(c, run[..|run| - 1]), run[|run| - 1]);
    }
  }
}
