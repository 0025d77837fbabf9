/** The checks that `validate` makes on the tags file before any command runs. */
module TagValidation {
  import opened ParentSearch
  import opened KollaTags

  const SUPPORTED_BASE_DISTROS: seq<Distro> := ["rocky-10", "ubuntu-noble"]

  datatype TagProblem =
    | MissingDefault
    | BadKey(n: Name)
    | UnsupportedDistro(n: Name, distro: Distro)
    | BadTag(n: Name, distro: Distro, tag: Tag)

  predicate NameChar(ch: char) {
    'a' <= ch <= 'z' || '0' <= ch <= '9' || ch == '_'
  }

  predicate AllNameChars(s: string) {
    forall i :: 0 <= i < |s| ==> NameChar(s[i])
  }

  /** The pattern `^[a-z0-9_]+$`, whose end also matches before a final newline. */
  predicate KeyMatches(n: Name) {
    n != "" && (AllNameChars(n) || (|n| > 1 && n[|n| - 1] == '\n' && AllNameChars(n[..|n| - 1])))
  }

  /** What is wrong with the tags file, for a pattern `tagMatches` that each distro's tags must match. */
  ghost predicate IsProblem(tags: TagVars, tagMatches: (Distro, Tag) -> bool, e: TagProblem) {
    match e
    case MissingDefault => OPENSTACK !in tags.entry
    case BadKey(n) => n in tags.entry && !KeyMatches(n)
    case UnsupportedDistro(n, d) => n in tags.entry && d in tags.entry[n] && d !in SUPPORTED_BASE_DISTROS
    case BadTag(n, d, tag) =>
      && n in tags.entry && d in tags.entry[n] && tags.entry[n][d] == tag
      && d in SUPPORTED_BASE_DISTROS && !tagMatches(d, tag)
  }

  /** The problems of the distro entries `seen` of the variable `n`. */
  ghost predicate EntryProblem(tags: TagVars, tagMatches: (Distro, Tag) -> bool, n: Name, seen: set<Distro>,
                               e: TagProblem) {
    && IsProblem(tags, tagMatches, e)
    && (e.UnsupportedDistro? || e.BadTag?)
    && e.n == n && e.distro in seen
  }

  /** The distro entries of one variable, in any order. */
  method ValidateEntries(tags: KollaImageTags, tagMatches: (Distro, Tag) -> bool, n: Name)
    returns (problems: seq<TagProblem>)
    requires n in tags.entry
    ensures forall e :: e in problems <==> EntryProblem(tags, tagMatches, n, tags.entry[n].Keys, e)
  {
    problems := [];
    var todo := tags.entry[n].Keys;
    while todo != {}
      invariant todo <= tags.entry[n].Keys
      invariant forall e :: e in problems <==> EntryProblem(tags, tagMatches, n, tags.entry[n].Keys - todo, e)
    {
      var d :| d in todo;
      todo := todo - {d};
      if d !in SUPPORTED_BASE_DISTROS {
        problems := problems + [UnsupportedDistro(n, d)];
      } else if !tagMatches(d, tags.entry[n][d]) {
        problems := problems + [BadTag(n, d, tags.entry[n][d])];
      }
    }
  }

  /** The problems reported are exactly the problems there are. */
  method Validate(tags: KollaImageTags, tagMatches: (Distro, Tag) -> bool) returns (problems: seq<TagProblem>)
    ensures forall e :: e in problems <==> IsProblem(tags, tagMatches, e)
  {
    problems := if OPENSTACK !in tags.entry then [MissingDefault] else [];
    for i := 0 to |tags.order|
      invariant forall e :: e in problems <==>
                  IsProblem(tags, tagMatches, e) && (e.MissingDefault? || e.n in tags.order[..i])
    {
      var n := tags.order[i];
      assert n in tags.order && tags.order[..i + 1] == tags.order[..i] + [n];
      if !KeyMatches(n) {
        problems := problems + [BadKey(n)];
      }
      var entries := ValidateEntries(tags, tagMatches, n);
      problems := problems + entries;
    }
    assert tags.order[..|tags.order|] == tags.order;
  }

  /** The file gets past `validate`. */
  ghost predicate Validated(tags: TagVars, tagMatches: (Distro, Tag) -> bool) {
    forall e :: !IsProblem(tags, tagMatches, e)
  }

  /** What the resolver and the printed overrides need of a tags file. */
  ghost predicate Usable(tags: TagVars) {
    && Keyed(tags)
    && (forall n :: n in tags.entry ==> ':' !in n && '\'' !in n)
    && (forall n, d :: n in tags.entry && d in tags.entry[n] ==> tags.entry[n][d] != "")
  }

  /** A small letter, a digit or an underscore, by its code. */
  predicate KeyCode(ch: char) {
    97 <= ch as int <= 122 || 48 <= ch as int <= 57 || ch as int == 95
  }

  ghost predicate KeyCodes(s: string) {
    forall ch :: ch in s ==> KeyCode(ch)
  }

  lemma AllKeyCodes(s: string)
    ensures AllNameChars(s) <==> KeyCodes(s)
  {
    if KeyCodes(s) {
      assert forall i :: 0 <= i < |s| ==> s[i] in s;
    }
  }

  /** A key matches when it has such characters only, one or more, and perhaps a newline at its end. */
  lemma KeyMatchesIff(n: Name)
    ensures KeyMatches(n) <==>
            exists body: string :: body != "" && KeyCodes(body) && (n == body || n == body + "\n")
  {
    AllKeyCodes(n);
    if n != "" {
      var body := n[..|n| - 1];
      AllKeyCodes(body);
      assert n == body + [n[|n| - 1]];
    }
    if body: string :| body != "" && KeyCodes(body) && n == body + "\n" {
      assert n[..|n| - 1] == body && n[|n| - 1] == '\n';
    }
  }

  /** A file passes when it has the default, its keys match, and its tags match the pattern of one of two distros. */
  lemma ValidatedIff(tags: KollaImageTags, tagMatches: (Distro, Tag) -> bool)
    ensures Validated(tags, tagMatches) <==>
            && "openstack" in tags.entry
            && (forall n :: n in tags.entry ==> KeyMatches(n))
            && (forall n, d :: n in tags.entry && d in tags.entry[n] ==>
                  (d == "rocky-10" || d == "ubuntu-noble") && tagMatches(d, tags.entry[n][d]))
  {
    assert IsProblem(tags, tagMatches, MissingDefault) <==> "openstack" !in tags.entry;
    forall n | n in tags.entry ensures IsProblem(tags, tagMatches, BadKey(n)) <==> !KeyMatches(n) {}
    forall n, d | n in tags.entry && d in tags.entry[n]
      ensures (d == "rocky-10" || d == "ubuntu-noble") && tagMatches(d, tags.entry[n][d]) <==>
              !IsProblem(tags, tagMatches, UnsupportedDistro(n, d))
                  && !IsProblem(tags, tagMatches, BadTag(n, d, tags.entry[n][d]))
    {
    }
  }

  lemma KeyWithoutSigns(n: Name)
    requires KeyMatches(n)
    ensures n != "" && ':' !in n && '\'' !in n
  {
    assert forall i :: 0 <= i < |n| - 1 ==> n[i] == n[..|n| - 1][i];
  }

  /** A tags file with no problem is usable, since a tag pattern never matches the empty tag. */
  lemma ValidatedUsable(tags: KollaImageTags, tagMatches: (Distro, Tag) -> bool)
    requires Validated(tags, tagMatches) && forall d :: !tagMatches(d, "")
    ensures Usable(tags)
  {
    assert !IsProblem(tags, tagMatches, MissingDefault);
    forall n | n in tags.entry ensures n != "" && ':' !in n && '\'' !in n {
      assert !IsProblem(tags, tagMatches, BadKey(n));
      KeyWithoutSigns(n);
    }
    forall n, d | n in tags.entry && d in tags.entry[n] ensures tags.entry[n][d] != "" {
      assert !IsProblem(tags, tagMatches, UnsupportedDistro(n, d));
      assert !IsProblem(tags, tagMatches, BadTag(n, d, tags.entry[n][d]));
    }
  }

  // -----------------------------------------------------------------------------------------------
  // Patterns
  // -----------------------------------------------------------------------------------------------

  /** The distro is supported, and its pattern accepts these two different tags, neither of them empty. */
  ghost predicate TwoTags(tagMatches: (Distro, Tag) -> bool, distro: Distro, a: Tag, b: Tag) {
    distro in SUPPORTED_BASE_DISTROS && tagMatches(distro, a) && tagMatches(distro, b) && a != b && a != "" && b != ""
  }

  predicate Digit(ch: char) {
    '0' <= ch <= '9'
  }

  /** Eight digits, a `T` and six digits. */
  predicate Timestamp(s: string) {
    |s| == 15 && s[8] == 'T' && forall i :: 0 <= i < 15 && i != 8 ==> Digit(s[i])
  }

  /** A release, the distro and a timestamp. */
  function Stamped(release: string): (Distro, Tag) -> bool {
    (distro, tag) =>
      var prefix := release + "-" + distro + "-";
      prefix <= tag && Timestamp(tag[|prefix|..])
  }

  lemma StampedTag(release: string, distro: Distro, stamp: string)
    ensures Timestamp(stamp) ==> Stamped(release)(distro, release + "-" + distro + "-" + stamp)
  {
    var prefix := release + "-" + distro + "-";
    assert (prefix + stamp)[|prefix|..] == stamp;
  }

  predicate Digits(s: string) {
    forall i :: 0 <= i < |s| ==> 48 <= s[i] as int <= 57
  }

  /** A timestamp is eight digits, a `T` and six digits. */
  lemma TimestampIff(s: string)
    ensures Timestamp(s) <==>
            exists date: string, time: string ::
              |date| == 8 && |time| == 6 && Digits(date) && Digits(time) && s == date + "T" + time
  {
    if Timestamp(s) {
      var date, time := s[..8], s[9..];
      assert s == date + "T" + time;
      assert Digits(date) && Digits(time);
    }
    if date: string, time: string :|
        |date| == 8 && |time| == 6 && Digits(date) && Digits(time) && s == date + "T" + time
    {
      forall i | 0 <= i < 15 && i != 8 ensures Digit(s[i]) {
        if i < 8 { assert s[i] == date[i]; } else { assert s[i] == time[i - 9]; }
      }
    }
  }

  /** A tag is the release, the distro and a timestamp. */
  lemma StampedIff(release: string, distro: Distro, tag: Tag)
    ensures Stamped(release)(distro, tag) <==>
            exists stamp: string :: Timestamp(stamp) && tag == release + "-" + distro + "-" + stamp
  {
    var prefix := release + "-" + distro + "-";
    if Stamped(release)(distro, tag) {
      assert tag == prefix + tag[|prefix|..];
    }
    if stamp: string :| Timestamp(stamp) && tag == prefix + stamp {
      assert tag[|prefix|..] == stamp;
    }
  }

  lemma TwoStamps()
    ensures Timestamp("20260101T000000") && Timestamp("20260102T000000")
    ensures "20260101T000000"[7] != "20260102T000000"[7]
  {
  }

  lemma SuffixDiffers(prefix: string, s: string, t: string, i: nat)
    requires i < |s| && i < |t| && s[i] != t[i]
    ensures prefix + s != prefix + t && prefix + s != "" && prefix + t != ""
  {
    assert (prefix + s)[|prefix| + i] != (prefix + t)[|prefix| + i];
  }

  /** The pattern of the script is one of those that the theorems are about. */
  lemma StampedTwoTags(release: string, distro: Distro)
    requires distro in SUPPORTED_BASE_DISTROS
    ensures !Stamped(release)(distro, "")
    ensures var prefix := release + "-" + distro + "-";
            TwoTags(Stamped(release), distro, prefix + "20260101T000000", prefix + "20260102T000000")
  {
    TwoStamps();
    StampedTag(release, distro, "20260101T000000");
    StampedTag(release, distro, "20260102T000000");
    SuffixDiffers(release + "-" + distro + "-", "20260101T000000", "20260102T000000", 7);
  }
}
