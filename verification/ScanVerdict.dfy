/** How `scan-images.sh` turns the result of one scan into a verdict on the image. */
module ScanVerdict {
  import opened PyText

  /** A vulnerability match, with the fields that the summary looks at; a missing type is empty. */
  datatype Match = Match(severity: string, name: string, artifactType: string, id: string, paths: seq<string>,
                         purl: string, fixVersions: seq<string>, dataSource: string)

  /** One row of the summary: the matches of one vulnerability, in the order of the report. */
  datatype Group = Group(id: string, members: seq<Match>)

  /**
    What one scan produced: whether the SBOM was there (or not asked for), the exit code of grype, whether
    its report could be processed, and the matches in it.
  */
  datatype Report = Report(sbom: bool, code: nat, processed: bool, matches: seq<Match>)

  datatype Verdict = Clean | High | Critical | Failed

  /** High or critical, and neither a kernel package nor a kernel image. */
  predicate Survives(m: Match) {
    && Upper(m.severity) in ["HIGH", "CRITICAL"]
    && !("kernel" <= m.name || "linux-kernel" <= m.name || "linux-libc-dev" <= m.name)
    && !("linux-kernel" <= m.artifactType)
  }

  function Survivors(ms: seq<Match>): seq<Match> {
    if ms == [] then [] else Survivors(ms[..|ms| - 1]) + if Survives(ms[|ms| - 1]) then [ms[|ms| - 1]] else []
  }

  /** Strings in code point order. */
  predicate Before(a: string, b: string) {
    b != "" && (a == "" || a[0] < b[0] || (a[0] == b[0] && Before(a[1..], b[1..])))
  }

  lemma {:induction false} BeforeTrichotomy(a: string, b: string)
    ensures a == b <==> !Before(a, b) && !Before(b, a)
    ensures !(Before(a, b) && Before(b, a))
  {
    if a != "" && b != "" && a[0] == b[0] {
      BeforeTrichotomy(a[1..], b[1..]);
      assert a == [a[0]] + a[1..] && b == [b[0]] + b[1..];
    }
  }

  lemma {:induction false} BeforeTransitive(a: string, b: string, c: string)
    requires Before(a, b) && Before(b, c)
    ensures Before(a, c)
  {
    if a != "" && a[0] == b[0] == c[0] {
      BeforeTransitive(a[1..], b[1..], c[1..]);
    }
  }

  /** The strings agree before `k`, where the first one ends or has the lesser character. */
  ghost predicate LessAt(a: string, b: string, k: int) {
    0 <= k <= |a| && k < |b| && a[..k] == b[..k] && (k == |a| || a[k] < b[k])
  }

  lemma SameFirst(a: string, b: string, k: int)
    ensures LessAt(a, b, k) && k > 0 ==> a[0] == b[0]
  {
    if LessAt(a, b, k) && k > 0 {
      assert a[0] == a[..k][0] && b[0] == b[..k][0];
    }
  }

  lemma {:induction false} BeforeIff(a: string, b: string)
    ensures Before(a, b) <==> exists k :: LessAt(a, b, k)
  {
    if b != "" {
      if a == "" || a[0] != b[0] {
        assert a[..0] == b[..0];
        assert LessAt(a, b, 0) <==> Before(a, b);
        forall k | LessAt(a, b, k) ensures k == 0 {
          SameFirst(a, b, k);
        }
      } else {
        BeforeIff(a[1..], b[1..]);
        if k :| LessAt(a[1..], b[1..], k) {
          assert a[..k + 1] == [a[0]] + a[1..][..k] && b[..k + 1] == [b[0]] + b[1..][..k];
          assert LessAt(a, b, k + 1);
        }
        if k :| LessAt(a, b, k) {
          assert k > 0;
          assert a[1..][..k - 1] == a[..k][1..] && b[1..][..k - 1] == b[..k][1..];
          assert LessAt(a[1..], b[1..], k - 1);
        }
      }
    }
  }

  /** Adds a match to the group of its ID, which is put in its place in the order when it is new. */
  function AddToGroups(groups: seq<Group>, m: Match): seq<Group> {
    if groups == [] || Before(m.id, groups[0].id) then [Group(m.id, [m])] + groups
    else if groups[0].id == m.id then [Group(m.id, groups[0].members + [m])] + groups[1..]
    else [groups[0]] + AddToGroups(groups[1..], m)
  }

  /** `group_by(.vulnerability.id)`. */
  function GroupById(ms: seq<Match>): seq<Group> {
    if ms == [] then [] else AddToGroups(GroupById(ms[..|ms| - 1]), ms[|ms| - 1])
  }

  function Summary(ms: seq<Match>): seq<Group> {
    GroupById(Survivors(ms))
  }

  /** The matches with the ID, in order. */
  function WithId(ms: seq<Match>, id: string): seq<Match> {
    if ms == [] then [] else WithId(ms[..|ms| - 1], id) + if ms[|ms| - 1].id == id then [ms[|ms| - 1]] else []
  }

  ghost predicate Ascending(groups: seq<Group>) {
    forall i, j :: 0 <= i < j < |groups| ==> Before(groups[i].id, groups[j].id)
  }

  /** The members of the group of an ID; none when there is no such group. */
  function MembersOf(groups: seq<Group>, id: string): seq<Match> {
    if groups == [] then [] else if groups[0].id == id then groups[0].members else MembersOf(groups[1..], id)
  }

  lemma {:induction false} AddAscending(groups: seq<Group>, m: Match)
    requires Ascending(groups)
    ensures Ascending(AddToGroups(groups, m))
    ensures forall g :: g in AddToGroups(groups, m) ==> g.id == m.id || exists g' :: g' in groups && g'.id == g.id
  {
    if groups == [] {
    } else if Before(m.id, groups[0].id) {
      forall j | 0 < j < |groups| ensures Before(m.id, groups[j].id) {
        BeforeTransitive(m.id, groups[0].id, groups[j].id);
      }
    } else if groups[0].id != m.id {
      var rest := AddToGroups(groups[1..], m);
      AddAscending(groups[1..], m);
      BeforeTrichotomy(m.id, groups[0].id);
      forall j | 0 <= j < |rest| ensures Before(groups[0].id, rest[j].id) {
        assert rest[j] in rest;
        if rest[j].id != m.id {
          var g' :| g' in groups[1..] && g'.id == rest[j].id;
        }
      }
    }
  }

  lemma {:induction false} AddMembers(groups: seq<Group>, m: Match, id: string)
    requires Ascending(groups)
    ensures MembersOf(AddToGroups(groups, m), id) == MembersOf(groups, id) + if m.id == id then [m] else []
  {
    if groups != [] && !Before(m.id, groups[0].id) && groups[0].id != m.id {
      AddMembers(groups[1..], m, id);
      BeforeTrichotomy(m.id, groups[0].id);
    } else if groups != [] && Before(m.id, groups[0].id) && m.id == id {
      BeforeTrichotomy(m.id, groups[0].id);
      NoGroup(groups, id);
    }
  }

  lemma {:induction false} NoGroup(groups: seq<Group>, id: string)
    requires Ascending(groups) && (groups == [] || Before(id, groups[0].id))
    ensures MembersOf(groups, id) == []
  {
    if groups != [] {
      BeforeTrichotomy(id, groups[0].id);
      if |groups| > 1 { BeforeTransitive(id, groups[0].id, groups[1].id); }
      NoGroup(groups[1..], id);
    }
  }

  lemma {:induction false} MembersAt(groups: seq<Group>, k: nat)
    requires Ascending(groups) && k < |groups|
    ensures MembersOf(groups, groups[k].id) == groups[k].members
  {
    if k > 0 {
      BeforeTrichotomy(groups[0].id, groups[k].id);
      MembersAt(groups[1..], k - 1);
    }
  }

  lemma {:induction false} AddNonEmpty(groups: seq<Group>, m: Match)
    requires forall g :: g in groups ==> g.members != []
    ensures forall g :: g in AddToGroups(groups, m) ==> g.members != []
    ensures exists g :: g in AddToGroups(groups, m) && g.id == m.id
    ensures forall g :: g in groups ==> exists g' :: g' in AddToGroups(groups, m) && g'.id == g.id
  {
    var r := AddToGroups(groups, m);
    if groups == [] || Before(m.id, groups[0].id) || groups[0].id == m.id {
      assert r[0] in r && r[0].id == m.id;
    } else {
      AddNonEmpty(groups[1..], m);
      var g :| g in AddToGroups(groups[1..], m) && g.id == m.id;
      assert g in r;
    }
    forall g | g in groups ensures exists g' :: g' in r && g'.id == g.id {
      if g in r {
      } else if g == groups[0] {
        assert r[0] in r;
      } else {
        var g' :| g' in AddToGroups(groups[1..], m) && g'.id == g.id;
        assert g' in r;
      }
    }
  }

  /** Grouping: one group for each ID there is, in ascending order, with the matches of the ID in order. */
  lemma {:induction false} GroupsExact(ms: seq<Match>)
    ensures Ascending(GroupById(ms))
    ensures forall id :: MembersOf(GroupById(ms), id) == WithId(ms, id)
    ensures forall g :: g in GroupById(ms) ==> g.members != []
    ensures forall m :: m in ms ==> exists g :: g in GroupById(ms) && g.id == m.id
  {
    if ms != [] {
      var init, last := ms[..|ms| - 1], ms[|ms| - 1];
      GroupsExact(init);
      AddAscending(GroupById(init), last);
      AddNonEmpty(GroupById(init), last);
      forall id ensures MembersOf(GroupById(ms), id) == WithId(ms, id) {
        AddMembers(GroupById(init), last, id);
      }
      forall m | m in ms ensures exists g :: g in GroupById(ms) && g.id == m.id {
        if m != last {
          assert m in init;
          var g :| g in GroupById(init) && g.id == m.id;
        }
      }
    }
  }

  lemma {:induction false} SurvivorsExact(ms: seq<Match>, m: Match)
    ensures m in Survivors(ms) <==> m in ms && Survives(m)
  {
    if ms != [] {
      SurvivorsExact(ms[..|ms| - 1], m);
      assert ms == ms[..|ms| - 1] + [ms[|ms| - 1]];
    }
  }

  ghost predicate HasRow(ms: seq<Match>, id: string) {
    exists g :: g in Summary(ms) && g.id == id
  }

  ghost predicate HasSurvivor(ms: seq<Match>, id: string) {
    exists m :: m in ms && Survives(m) && m.id == id
  }

  /** The summary has exactly one row for each ID that survives the filters, with all its surviving matches. */
  lemma SummaryExact(ms: seq<Match>)
    ensures Ascending(Summary(ms))
    ensures forall g :: g in Summary(ms) ==> g.members == WithId(Survivors(ms), g.id) != []
    ensures forall id :: HasRow(ms, id) <==> HasSurvivor(ms, id)
  {
    var sv := Survivors(ms);
    GroupsExact(sv);
    forall g | g in Summary(ms) ensures g.members == WithId(sv, g.id) {
      var k :| 0 <= k < |Summary(ms)| && Summary(ms)[k] == g;
      MembersAt(Summary(ms), k);
    }
    forall id ensures HasRow(ms, id) <==> HasSurvivor(ms, id) {
      if HasRow(ms, id) {
        WithIdMember(sv, id);
        SurvivorsExact(ms, WithId(sv, id)[0]);
      }
      if m :| m in ms && Survives(m) && m.id == id {
        SurvivorsExact(ms, m);
      }
    }
  }

  lemma {:induction false} WithIdMember(ms: seq<Match>, id: string)
    ensures forall m :: m in WithId(ms, id) ==> m in ms && m.id == id
  {
    if ms != [] { WithIdMember(ms[..|ms| - 1], id); }
  }

  /** The strings that make up a row: joining and quoting them neither makes nor breaks a word of letters. */
  function Cells(g: Group): set<string>
    requires g.members != []
  {
    var first := g.members[0];
    (set m | m in g.members :: m.name) + (set m, path | m in g.members && path in m.paths :: path)
    + {first.purl, g.id, first.dataSource, Upper(first.severity)} + (set v | v in first.fixVersions)
  }

  /** `grep CRITICAL` finds the row: it searches the whole line, not only the severity. */
  ghost predicate GrepsCritical(g: Group) {
    g.members != [] && exists cell :: cell in Cells(g) && Contains(cell, "CRITICAL")
  }

  ghost function VerdictOf(r: Report): Verdict {
    if !r.sbom then Failed
    else if r.code == 0 then Clean
    else if r.code != 2 || !r.processed then Failed
    else if Summary(r.matches) == [] then Clean
    else if exists g :: g in Summary(r.matches) && GrepsCritical(g) then Critical
    else High
  }

  /** The report is one of findings: grype exited with 2 and its output was processed. */
  ghost predicate HasFindings(r: Report) {
    r.sbom && r.code == 2 && r.processed
  }

  /** An image with findings is clean exactly when no match survives the filters. */
  lemma CleanIffNoneSurvives(r: Report)
    requires HasFindings(r)
    ensures VerdictOf(r) == Clean <==> forall m :: m in r.matches ==> !Survives(m)
  {
    SummaryExact(r.matches);
    if Summary(r.matches) != [] {
      var g := Summary(r.matches)[0];
      assert g in Summary(r.matches) && HasRow(r.matches, g.id);
    }
    if m :| m in r.matches && Survives(m) {
      assert HasSurvivor(r.matches, m.id);
    }
  }

  /** The first surviving match of its ID is critical. */
  ghost predicate LeadsCritical(ms: seq<Match>, m: Match) {
    && m in ms && Survives(m) && Upper(m.severity) == "CRITICAL"
    && WithId(Survivors(ms), m.id) != [] && WithId(Survivors(ms), m.id)[0] == m
  }

  /** The word comes from a name, path or other text of the row. */
  ghost predicate OtherText(g: Group) {
    g.members != [] && exists cell :: cell in Cells(g) - {Upper(g.members[0].severity)} && Contains(cell, "CRITICAL")
  }

  lemma RowCriticalIff(g: Group)
    requires g.members != [] && Survives(g.members[0])
    ensures GrepsCritical(g) <==> Upper(g.members[0].severity) == "CRITICAL" || OtherText(g)
  {
    var s := Upper(g.members[0].severity);
    assert "CRITICAL"[0..] == "CRITICAL" && s[0..] == s;
    assert s in Cells(g);
  }

  lemma RowLeads(ms: seq<Match>, g: Group)
    requires g in Summary(ms)
    ensures g.members != [] && Survives(g.members[0]) && g.members[0] in ms && g.members[0].id == g.id
    ensures WithId(Survivors(ms), g.id) == g.members
  {
    SummaryExact(ms);
    WithIdMember(Survivors(ms), g.id);
    SurvivorsExact(ms, g.members[0]);
  }

  /** Only the first surviving match of an ID counts towards critical, unless other text says "CRITICAL". */
  lemma CriticalIff(r: Report)
    requires HasFindings(r)
    ensures VerdictOf(r) == Critical <==>
            (exists m :: LeadsCritical(r.matches, m)) || (exists g :: g in Summary(r.matches) && OtherText(g))
  {
    var ms := r.matches;
    forall g | g in Summary(ms)
      ensures GrepsCritical(g) ==> OtherText(g) || LeadsCritical(ms, g.members[0])
      ensures OtherText(g) ==> GrepsCritical(g)
    {
      RowLeads(ms, g);
      RowCriticalIff(g);
    }
    if m :| LeadsCritical(ms, m) {
      SummaryExact(ms);
      assert HasSurvivor(ms, m.id);
      var g :| g in Summary(ms) && g.id == m.id;
      RowLeads(ms, g);
      RowCriticalIff(g);
    }
  }

  // -----------------------------------------------------------------------------------------------
  // The verdict in terms of the report
  // -----------------------------------------------------------------------------------------------

  /**
    A high or critical match survives unless its package is a kernel package, or its type is that of a kernel image.
  */
  lemma SurvivesIff(m: Match)
    ensures Survives(m) <==>
            && (Upper(m.severity) == "HIGH" || Upper(m.severity) == "CRITICAL")
            && (forall rest ::
                  m.name != "kernel" + rest && m.name != "linux-kernel" + rest && m.name != "linux-libc-dev" + rest)
            && (forall rest :: m.artifactType != "linux-kernel" + rest)
  {
    BeginsWith(m.name, "kernel");
    BeginsWith(m.name, "linux-kernel");
    BeginsWith(m.name, "linux-libc-dev");
    BeginsWith(m.artifactType, "linux-kernel");
  }

  lemma BeginsWith(s: string, prefix: string)
    ensures prefix <= s <==> exists rest :: s == prefix + rest
  {
    if prefix <= s {
      assert s == prefix + s[|prefix|..];
    }
  }

  /** No match of the same vulnerability survives before the one at `i`. */
  ghost predicate Leads(ms: seq<Match>, i: int) {
    0 <= i < |ms| && Survives(ms[i]) && forall j :: 0 <= j < i && Survives(ms[j]) ==> ms[j].id != ms[i].id
  }

  predicate Says(text: string) {
    Contains(text, "CRITICAL")
  }

  /** The match that leads its row says "CRITICAL": in its severity, or in what the row shows of it alone. */
  ghost predicate LeadSays(m: Match) {
    || Upper(m.severity) == "CRITICAL" || Says(m.id) || Says(m.purl) || Says(m.dataSource)
    || exists v :: v in m.fixVersions && Says(v)
  }

  /** A match says "CRITICAL" in the name or a path that its row shows. */
  ghost predicate MemberSays(m: Match) {
    Says(m.name) || exists path :: path in m.paths && Says(path)
  }

  lemma LeadStays(ms: seq<Match>, m: Match, i: int)
    requires Leads(ms, i)
    ensures Leads(ms + [m], i) && (ms + [m])[i] == ms[i]
  {
  }

  /** No match of the vulnerability survives. */
  ghost predicate Unled(ms: seq<Match>, id: string) {
    forall i :: 0 <= i < |ms| && Survives(ms[i]) ==> ms[i].id != id
  }

  lemma UnledNext(ms: seq<Match>, m: Match, id: string)
    requires Unled(ms, id)
    ensures if Survives(m) && m.id == id then Leads(ms + [m], |ms|) else Unled(ms + [m], id)
  {
  }

  /** The match at `i` leads its vulnerability, and comes first among those that survive. */
  ghost predicate LeadsAs(ms: seq<Match>, id: string, i: int) {
    Leads(ms, i) && ms[i].id == id && WithId(Survivors(ms), id) != [] && ms[i] == WithId(Survivors(ms), id)[0]
  }

  lemma WithIdLast(ms: seq<Match>, m: Match, id: string)
    ensures WithId(Survivors(ms + [m]), id) == WithId(Survivors(ms), id) + if Survives(m) && m.id == id then [m] else []
  {
    assert (ms + [m])[..|ms|] == ms;
    assert Survivors(ms) + [] == Survivors(ms) && (Survivors(ms) + [m])[..|Survivors(ms)|] == Survivors(ms);
  }

  lemma {:induction false} LeadOf(ms: seq<Match>, id: string)
    ensures if WithId(Survivors(ms), id) == [] then Unled(ms, id) else exists i :: LeadsAs(ms, id, i)
  {
    if ms != [] {
      var init, m := ms[..|ms| - 1], ms[|ms| - 1];
      assert ms == init + [m];
      LeadOf(init, id);
      WithIdLast(init, m, id);
      if WithId(Survivors(init), id) != [] {
        var i :| LeadsAs(init, id, i);
        LeadStays(init, m, i);
        assert LeadsAs(ms, id, i);
      } else {
        UnledNext(init, m, id);
        if Survives(m) && m.id == id {
          assert LeadsAs(ms, id, |init|);
        }
      }
    }
  }

  lemma LeadIsUnique(ms: seq<Match>, i: int, j: int)
    requires Leads(ms, i) && Leads(ms, j) && ms[i].id == ms[j].id
    ensures i == j
  {
  }

  lemma {:induction false} WithIdExact(ms: seq<Match>, id: string, m: Match)
    ensures m in WithId(ms, id) <==> m in ms && m.id == id
  {
    if ms != [] {
      WithIdExact(ms[..|ms| - 1], id, m);
      assert ms == ms[..|ms| - 1] + [ms[|ms| - 1]];
    }
  }

  /** A row says "CRITICAL" exactly when its leading match does, or one of its matches in a name or a path. */
  lemma RowSays(g: Group)
    requires g.members != [] && g.id == g.members[0].id && Survives(g.members[0])
    ensures GrepsCritical(g) <==> LeadSays(g.members[0]) || exists m :: m in g.members && MemberSays(m)
  {
    var f := g.members[0];
    SeveritySays(f);
    if GrepsCritical(g) {
      var cell :| cell in Cells(g) && Contains(cell, "CRITICAL");
      if m :| m in g.members && cell == m.name {
        assert MemberSays(m);
      } else if m, path :| m in g.members && path in m.paths && cell == path {
        assert Says(path) && MemberSays(m);
      } else if cell in f.fixVersions {
        assert Says(cell);
      }
    }
    if m :| m in g.members && MemberSays(m) {
      if Says(m.name) {
        assert m.name in Cells(g);
      } else {
        var path :| path in m.paths && Says(path);
        assert path in Cells(g);
      }
    }
    if LeadSays(f) {
      LeadCells(g);
    }
  }

  lemma LeadCells(g: Group)
    requires g.members != [] && g.id == g.members[0].id && LeadSays(g.members[0])
    ensures GrepsCritical(g)
  {
    var f := g.members[0];
    SeveritySays(f);
    if v :| v in f.fixVersions && Says(v) {
      assert v in Cells(g);
    } else {
      assert f.id in Cells(g) && f.purl in Cells(g) && f.dataSource in Cells(g) && Upper(f.severity) in Cells(g);
    }
  }

  /** A text shorter than the word, or with none of its first letter, does not contain it. */
  lemma NotContained(s: string)
    requires |s| < 8 || 'C' !in s
    ensures !Contains(s, "CRITICAL")
  {
    forall k | 0 <= k <= |s| ensures !("CRITICAL" <= s[k..]) {
      assert |s| >= 8 && k < |s| ==> s[k] in s && "CRITICAL"[0] != s[k..][0];
    }
  }

  lemma SeveritySays(m: Match)
    ensures Upper(m.severity) == "CRITICAL" ==> Says(Upper(m.severity))
    ensures Says(Upper(m.severity)) && Survives(m) ==> Upper(m.severity) == "CRITICAL"
  {
    assert "CRITICAL"[0..] == "CRITICAL";
    if Upper(m.severity) == "HIGH" { NotContained("HIGH"); }
  }

  /** What of the report makes the image critical. */
  ghost predicate ReportSays(ms: seq<Match>) {
    || (exists i :: Leads(ms, i) && LeadSays(ms[i]))
    || (exists m :: m in ms && Survives(m) && MemberSays(m))
  }

  lemma RowsSay(ms: seq<Match>)
    ensures (exists g :: g in Summary(ms) && GrepsCritical(g)) <==> ReportSays(ms)
  {
    SummaryExact(ms);
    if g :| g in Summary(ms) && GrepsCritical(g) {
      RowLeads(ms, g);
      RowSays(g);
      LeadOf(ms, g.id);
      if m :| m in g.members && MemberSays(m) {
        WithIdExact(Survivors(ms), g.id, m);
        SurvivorsExact(ms, m);
      }
    }
    if i :| Leads(ms, i) && LeadSays(ms[i]) {
      var g := RowOf(ms, ms[i]);
      LeadOf(ms, g.id);
      var j :| LeadsAs(ms, g.id, j);
      LeadIsUnique(ms, i, j);
      RowSays(g);
    }
    if m :| m in ms && Survives(m) && MemberSays(m) {
      var g := RowOf(ms, m);
      RowSays(g);
    }
  }

  /** The row of a match that survives. */
  lemma RowOf(ms: seq<Match>, m: Match) returns (g: Group)
    requires m in ms && Survives(m)
    ensures g in Summary(ms) && g.id == m.id && m in g.members && g.members == WithId(Survivors(ms), g.id)
    ensures g.members[0].id == g.id && Survives(g.members[0])
  {
    SummaryExact(ms);
    assert HasSurvivor(ms, m.id);
    g :| g in Summary(ms) && g.id == m.id;
    RowLeads(ms, g);
    SurvivorsExact(ms, m);
    WithIdExact(Survivors(ms), m.id, m);
  }

  /** The scan fails: no SBOM, a code that grype gives for an error, or a report that cannot be processed. */
  ghost predicate ScanFails(r: Report) {
    !r.sbom || (r.code != 0 && r.code != 2) || (r.code == 2 && !r.processed)
  }

  ghost predicate NoneSurvives(r: Report) {
    forall m :: m in r.matches ==> !Survives(m)
  }

  /** The verdict of any report, without its summary. */
  lemma VerdictIff(r: Report)
    ensures VerdictOf(r) == Verdict.Failed <==> ScanFails(r)
    ensures VerdictOf(r) == Clean <==> !ScanFails(r) && (r.code == 0 || NoneSurvives(r))
    ensures VerdictOf(r) == Critical <==> !ScanFails(r) && r.code == 2 && !NoneSurvives(r) && ReportSays(r.matches)
    ensures VerdictOf(r) == High <==> !ScanFails(r) && r.code == 2 && !NoneSurvives(r) && !ReportSays(r.matches)
  {
    if HasFindings(r) {
      CleanIffNoneSurvives(r);
      RowsSay(r.matches);
    }
  }

  // -----------------------------------------------------------------------------------------------
  // When the verdict on severity is right
  // -----------------------------------------------------------------------------------------------

  ghost predicate SomeCritical(ms: seq<Match>) {
    exists m :: m in ms && Survives(m) && Upper(m.severity) == "CRITICAL"
  }

  ghost predicate SomeLeads(ms: seq<Match>) {
    exists m :: LeadsCritical(ms, m)
  }

  ghost predicate SomeText(ms: seq<Match>) {
    exists g :: g in Summary(ms) && OtherText(g)
  }

  /**
    The image is critical exactly when a match that survives is, if and only if such a match, where there is one,
    shows in its row or other text stands in for it, and no other text says "CRITICAL" where there is none.
  */
  lemma CriticalRightIff(r: Report)
    requires HasFindings(r)
    ensures (VerdictOf(r) == Critical <==> SomeCritical(r.matches))
       <==> if SomeCritical(r.matches) then SomeLeads(r.matches) || SomeText(r.matches) else !SomeText(r.matches)
  {
    CriticalIff(r);
    if m :| LeadsCritical(r.matches, m) {
      assert SomeCritical(r.matches);
    }
  }

  /** A match of a package, with a severity and nothing else. */
  function Plain(severity: string, name: string): Match {
    Match(severity, name, "", "CVE-1", [], "", [], "")
  }

  /** A scan that found these matches. */
  function Found(ms: seq<Match>): Report {
    Report(true, 2, true, ms)
  }

  lemma SummaryOfTwo(a: Match, b: Match)
    requires Survives(a) && Survives(b) && a.id == b.id
    ensures Summary([a, b]) == [Group(a.id, [a, b])]
  {
    assert [a, b][..1] == [a] && [a][..0] == [];
    SummaryOfOne(a);
    BeforeTrichotomy(a.id, a.id);
    assert Survivors([a, b]) == [a, b];
  }

  lemma SummaryOfOne(a: Match)
    requires Survives(a)
    ensures Survivors([a]) == [a] && Summary([a]) == [Group(a.id, [a])]
  {
    assert [a][..0] == [];
    assert Survivors([a]) == [a];
    assert GroupById([a]) == AddToGroups([], a) == [Group(a.id, [a])];
  }

  /** A severe match of a package whose name does not begin like that of a kernel package. */
  lemma PlainSurvives(severity: string, name: string)
    requires Upper(severity) in ["HIGH", "CRITICAL"] && name != "" && name[0] != 'k' && name[0] != 'l'
    ensures Survives(Plain(severity, name))
  {
    assert "kernel"[0] == 'k' && "linux-kernel"[0] == 'l' && "linux-libc-dev"[0] == 'l';
  }

  /** A row that leads with a high match and has no other text. */
  lemma HighRowSilent(a: Match, b: Match)
    requires a == Plain("High", "bash") && b == Plain("Critical", "bash-libs")
    ensures !GrepsCritical(Group("CVE-1", [a, b]))
  {
    UpperWords();
    NotContained("bash");
    NotContained("bash-libs");
    NotContained("");
    NotContained("CVE-1");
    NotContained("HIGH");
    assert forall cell :: cell in Cells(Group("CVE-1", [a, b])) ==> cell in ["bash", "bash-libs", "", "CVE-1", "HIGH"];
  }

  /** A critical match behind a high one of the same vulnerability: the image is only high. */
  lemma CriticalMatchMissed()
    ensures var ms := [Plain("High", "bash"), Plain("Critical", "bash-libs")];
            SomeCritical(ms) && VerdictOf(Found(ms)) == High
  {
    var a, b := Plain("High", "bash"), Plain("Critical", "bash-libs");
    UpperWords();
    PlainSurvives("High", "bash");
    PlainSurvives("Critical", "bash-libs");
    assert b in [a, b];
    SummaryOfTwo(a, b);
    HighRowSilent(a, b);
  }

  lemma UpperWords()
    ensures Upper("High") == "HIGH" && Upper("Critical") == "CRITICAL"
  {
  }

  /** A high match of a package with the word in its name: the image is critical. */
  lemma HighMatchMistaken()
    ensures var ms := [Plain("High", "CRITICAL-tools")];
            !SomeCritical(ms) && VerdictOf(Found(ms)) == Critical
  {
    var a := Plain("High", "CRITICAL-tools");
    UpperWords();
    PlainSurvives("High", "CRITICAL-tools");
    SummaryOfOne(a);
    var g := Group(a.id, [a]);
    assert a in g.members && "CRITICAL-tools" in Cells(g);
    assert "CRITICAL" <= "CRITICAL-tools"[0..];
    assert GrepsCritical(g) && g in Summary([a]);
  }
}
