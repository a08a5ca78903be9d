/** Overlay tags: resolving a directory's version tags and replaying the accepted pin. */
module OverlayTags {
  import opened Wrappers
  import opened Texts
  import opened Semver
  import opened Ranges
  import opened RangeText

  datatype Tag = Tag(name: string, commit: string, manifest: string)

  datatype Pin = Pin(directory: string, tag: string, commit: string, version: string)

  datatype Reason =
    | Accept | ProfileSourceInvalid | LockInvalid | StrictTagRefused | UnsupportedFixture
    | ContextRangeConflict | ObjectInvalid | ContextVersionMismatch

  datatype Verdict = Verdict(reason: Reason, tag: string, commit: string, version: string, warning: bool)

  datatype Phase = Resolve | Replay | OtherPhase

  datatype Request = Request(phase: Phase, directory: string, range: string, tags: seq<Tag>, pin: Option<Pin>,
    observed: string, strict: bool)

  /** Directory, tag and commit spellings, taken as predicates. */
  datatype Spelling = Spelling(directoryOk: string -> bool, safeTag: string -> bool, commitOk: string -> bool)

  const WINDOW: string := ">=0.1.17 <1.0.0"

  const FLOOR: Version := Version(0, 1, 17, [])

  /** Three canonical numbers that fit 64 bits. */
  function Stable(text: string): Option<Version> {
    var parsed := ParseCore(text, []);
    if parsed.ok then Some(parsed.version) else None
  }

  function Prefix(directory: string): string { if directory == "" then "v" else directory + "/v" }

  function Behind(name: string, prefix: string): string
    requires prefix <= name
  {
    name[|prefix|..]
  }

  /** The version a tag stands for under a prefix. */
  function VersionOf(spelling: Spelling, prefix: string, t: Tag): Option<Version> {
    if !spelling.safeTag(t.name) || !(prefix <= t.name) then None else Stable(Behind(t.name, prefix))
  }

  predicate Greater(a: Version, b: Version) { TripleBelow(b, a) }

  /** The hard-coded filter. */
  predicate InWindow(range: string, v: Version) {
    range == "*" || (v.major == 0 && (Greater(v, FLOOR) || v == FLOOR))
  }

  predicate Admitted(spelling: Spelling, prefix: string, range: string, t: Tag) {
    var v := VersionOf(spelling, prefix, t);
    v.Some? && InWindow(range, v.value)
  }

  /** The scan: a later tag replaces the best so far when it is greater. */
  function Best(spelling: Spelling, prefix: string, range: string, tags: seq<Tag>): (best: Option<Tag>)
    ensures best.Some? ==> best.value in tags && Admitted(spelling, prefix, range, best.value)
  {
    if tags == [] then None
    else
      var front, t := Best(spelling, prefix, range, tags[..|tags| - 1]), tags[|tags| - 1];
      if Admitted(spelling, prefix, range, t)
         && (front.None? || Greater(VersionOf(spelling, prefix, t).value,
            VersionOf(spelling, prefix, front.value).value))
      then Some(t) else front
  }

  function Refuse(reason: Reason): Verdict { Verdict(reason, "", "", "", false) }

  function Resolved(spelling: Spelling, r: Request): Verdict {
    match Best(spelling, Prefix(r.directory), r.range, r.tags)
    case None => Refuse(ContextRangeConflict)
    case Some(best) =>
      var version := Behind(best.name, Prefix(r.directory));
      if !spelling.commitOk(best.commit) then Refuse(ObjectInvalid)
      else if best.manifest != version then Refuse(ContextVersionMismatch)
      else Verdict(Accept, best.name, best.commit, version, false)
  }

  predicate PinOk(spelling: Spelling, r: Request) {
    && r.pin.Some? && r.pin.value.directory == r.directory && spelling.commitOk(r.pin.value.commit)
    && Stable(r.pin.value.version).Some? && r.pin.value.tag == Prefix(r.directory) + r.pin.value.version
    && spelling.safeTag(r.pin.value.tag)
  }

  predicate Moved(r: Request)
    requires r.pin.Some?
  {
    r.observed != "" && r.observed != r.pin.value.commit
  }

  function Replayed(spelling: Spelling, r: Request): Verdict {
    if !PinOk(spelling, r) then Refuse(LockInvalid)
    else if Moved(r) && r.strict then Refuse(StrictTagRefused)
    else Verdict(Accept, r.pin.value.tag, r.pin.value.commit, r.pin.value.version, Moved(r))
  }

  predicate DirectoryUsable(spelling: Spelling, directory: string) {
    spelling.directoryOk(directory) && spelling.safeTag(Prefix(directory) + "0.0.0")
  }

  function Evaluated(spelling: Spelling, r: Request): Verdict {
    if !DirectoryUsable(spelling, r.directory) then Refuse(ProfileSourceInvalid)
    else match r.phase
      case Replay => Replayed(spelling, r)
      case Resolve => if r.range != "*" && r.range != WINDOW then Refuse(UnsupportedFixture) else Resolved(spelling, r)
      case OtherPhase => Refuse(UnsupportedFixture)
  }

  lemma BestStep(spelling: Spelling, prefix: string, range: string, tags: seq<Tag>, i: nat)
    requires i < |tags|
    ensures var front, t := Best(spelling, prefix, range, tags[..i]), tags[i];
      Best(spelling, prefix, range, tags[..i + 1])
      == if Admitted(spelling, prefix, range, t)
            && (front.None? || Greater(VersionOf(spelling, prefix, t).value,
               VersionOf(spelling, prefix, front.value).value))
         then Some(t) else front
  {
    hide VersionOf, InWindow, Greater;
    assert tags[..i + 1][..i] == tags[..i];
  }

  /** evaluate, with its scan over the tags as a loop. */
  method Evaluate(spelling: Spelling, r: Request) returns (verdict: Verdict)
    ensures verdict == Evaluated(spelling, r)
  {
    hide Best, Replayed, DirectoryUsable, InWindow, Greater, Behind, Prefix;
    if !DirectoryUsable(spelling, r.directory) { return Refuse(ProfileSourceInvalid); }
    if r.phase == Replay { return Replayed(spelling, r); }
    if r.phase != Resolve || (r.range != "*" && r.range != WINDOW) { return Refuse(UnsupportedFixture); }
    var prefix := Prefix(r.directory);
    var best: Option<Tag> := None;
    var bestVersion := FLOOR;
    for i := 0 to |r.tags|
      invariant best == Best(spelling, prefix, r.range, r.tags[..i])
      invariant best.Some? ==> Some(bestVersion) == VersionOf(spelling, prefix, best.value)
    {
      BestStep(spelling, prefix, r.range, r.tags, i);
      var v := VersionOf(spelling, prefix, r.tags[i]);
      if v.Some? && InWindow(r.range, v.value) {
        if best.None? || Greater(v.value, bestVersion) {
          best, bestVersion := Some(r.tags[i]), v.value;
        }
      }
    }
    assert r.tags[..|r.tags|] == r.tags;
    if best.None? { return Refuse(ContextRangeConflict); }
    if !spelling.commitOk(best.value.commit) { return Refuse(ObjectInvalid); }
    var version := Behind(best.value.name, prefix);
    if best.value.manifest != version { return Refuse(ContextVersionMismatch); }
    return Verdict(Accept, best.value.name, best.value.commit, version, false);
  }

  // --------------------------------------------------------- what it chooses

  /** The name of a candidate is its prefix and its printed version. */
  lemma NameFromVersion(spelling: Spelling, prefix: string, t: Tag)
    requires VersionOf(spelling, prefix, t).Some?
    ensures t.name == prefix + PrintCore(VersionOf(spelling, prefix, t).value)
    ensures WellFormed(VersionOf(spelling, prefix, t).value) && VersionOf(spelling, prefix, t).value.Stable()
  {
    CoreRoundTrip(Behind(t.name, prefix), []);
    assert t.name == prefix + Behind(t.name, prefix);
  }

  /** The chosen tag is admitted and no admitted tag is greater; none is chosen when none is admitted. */
  lemma {:induction false} BestIsGreatest(spelling: Spelling, prefix: string, range: string, tags: seq<Tag>)
    ensures var best := Best(spelling, prefix, range, tags);
      forall t :: t in tags && Admitted(spelling, prefix, range, t) ==>
        best.Some? && !Greater(VersionOf(spelling, prefix, t).value, VersionOf(spelling, prefix, best.value).value)
  {
    if tags != [] {
      assert tags == tags[..|tags| - 1] + [tags[|tags| - 1]];
      BestIsGreatest(spelling, prefix, range, tags[..|tags| - 1]);
    }
  }

  predicate DistinctNames(tags: seq<Tag>) {
    forall s, t :: s in tags && t in tags && s.name == t.name ==> s == t
  }

  /** The choice depends on the set of tags, not on their order. */
  lemma BestIgnoresOrder(spelling: Spelling, prefix: string, range: string, tags: seq<Tag>, others: seq<Tag>)
    requires DistinctNames(tags) && forall t :: t in tags <==> t in others
    ensures Best(spelling, prefix, range, tags) == Best(spelling, prefix, range, others)
  {
    BestIsGreatest(spelling, prefix, range, tags);
    BestIsGreatest(spelling, prefix, range, others);
    var a, b := Best(spelling, prefix, range, tags), Best(spelling, prefix, range, others);
    if a.Some? && b.Some? {
      NameFromVersion(spelling, prefix, a.value);
      NameFromVersion(spelling, prefix, b.value);
      assert !Greater(VersionOf(spelling, prefix, a.value).value, VersionOf(spelling, prefix, b.value).value);
      assert !Greater(VersionOf(spelling, prefix, b.value).value, VersionOf(spelling, prefix, a.value).value);
    }
  }

  /** Any order of the same distinct tags gives the same verdict. */
  lemma VerdictIgnoresOrder(spelling: Spelling, r: Request, others: seq<Tag>)
    requires DistinctNames(r.tags) && forall t :: t in r.tags <==> t in others
    ensures Evaluated(spelling, r) == Evaluated(spelling, r.(tags := others))
  {
    BestIgnoresOrder(spelling, Prefix(r.directory), r.range, r.tags, others);
  }

  // ------------------------------------------- agreement with the range engine

  lemma WindowParses()
    ensures ParseRange(WINDOW) == Some([[Cmp(Ge, FLOOR), Cmp(Lt, Version(1, 0, 0, []))]])
  {
    hide ParseRange, PrintComparator, Join;
    var comparators := [Cmp(Ge, FLOOR), Cmp(Lt, Version(1, 0, 0, []))];
    var range := [comparators];
    WindowPrinted();
    var words := PrintAll(comparators);
    TwoWords(words);
    assert PrintRange(range) == Join(words, ' ');
    assert ">=0.1.17" + [' '] + "<1.0.0" == WINDOW;
    assert DesugaredRange(range);
    RangeReparsesIffItFits(range);
  }

  lemma WindowPrinted()
    ensures PrintComparator(Cmp(Ge, FLOOR)) == ">=0.1.17"
    ensures PrintComparator(Cmp(Lt, Version(1, 0, 0, []))) == "<1.0.0"
  {
    assert Numeral(1) == "1" && Numeral(0) == "0" && Numeral(17) == Numeral(1) + "7";
    assert PrintCore(FLOOR) == "0.1.17" && PrintCore(Version(1, 0, 0, [])) == "1.0.0";
    assert Print(FLOOR) == "0.1.17" && Print(Version(1, 0, 0, [])) == "1.0.0";
    assert ">=" + "0.1.17" == ">=0.1.17" && "<" + "1.0.0" == "<1.0.0";
  }

  lemma TwoWords(words: seq<string>)
    requires |words| == 2
    ensures Join(words, ' ') == words[0] + [' '] + words[1]
  {
    assert words[1..] == [words[1]];
  }

  /** On stable versions the hard-coded filter and the general range engine admit the same. */
  lemma FilterAgreesWithEngine(range: string, v: Version)
    requires range == "*" || range == WINDOW
    requires WellFormed(v) && v.Stable()
    ensures ParseRange(range).Some? && (InWindow(range, v) <==> RangeSatisfies(ParseRange(range).value, v))
  {
    hide ParseRange;
    if range == "*" {
      StarParses();
      SingleSatisfies(Any, v);
      assert [Any] in [[Any]];
    } else {
      WindowParses();
      WindowMeans(v);
    }
  }

  lemma WindowMeans(v: Version)
    requires WellFormed(v) && v.Stable()
    ensures RangeSatisfies([[Cmp(Ge, FLOOR), Cmp(Lt, Version(1, 0, 0, []))]], v)
       <==> v.major == 0 && (Greater(v, FLOOR) || v == FLOOR)
  {
    var comparators := [Cmp(Ge, FLOOR), Cmp(Lt, Version(1, 0, 0, []))];
    PairSatisfies(comparators[0], comparators[1], v);
    assert comparators in [comparators];
    StableAgainst(v, FLOOR);
    StableAgainst(v, Version(1, 0, 0, []));
  }

  /** So resolution picks the greatest stable tag the range engine admits. */
  lemma ResolvesToGreatestInRange(spelling: Spelling, r: Request, t: Tag)
    requires r.range == "*" || r.range == WINDOW
    requires t in r.tags && VersionOf(spelling, Prefix(r.directory), t).Some?
    ensures ParseRange(r.range).Some?
    ensures RangeSatisfies(ParseRange(r.range).value, VersionOf(spelling, Prefix(r.directory), t).value) ==>
      var best := Best(spelling, Prefix(r.directory), r.range, r.tags);
      best.Some? && var v := VersionOf(spelling, Prefix(r.directory), best.value).value;
      RangeSatisfies(ParseRange(r.range).value, v)
      && Compare(VersionOf(spelling, Prefix(r.directory), t).value, v) <= 0
  {
    hide ParseRange, RangeSatisfies;
    var prefix := Prefix(r.directory);
    var w := VersionOf(spelling, prefix, t).value;
    NameFromVersion(spelling, prefix, t);
    FilterAgreesWithEngine(r.range, w);
    BestIsGreatest(spelling, prefix, r.range, r.tags);
    var best := Best(spelling, prefix, r.range, r.tags);
    if best.Some? {
      NameFromVersion(spelling, prefix, best.value);
      FilterAgreesWithEngine(r.range, VersionOf(spelling, prefix, best.value).value);
      StableAgainst(w, VersionOf(spelling, prefix, best.value).value);
    }
  }

  /** The tag spells the version under the directory's prefix, and the range engine admits it. */
  predicate OnOffer(spelling: Spelling, r: Request, t: Tag, v: Version) {
    && t in r.tags && spelling.safeTag(t.name) && WellFormed(v) && v.Stable()
    && t.name == (if r.directory == "" then "v" else r.directory + "/v") + PrintCore(v)
    && ParseRange(r.range).Some? && RangeSatisfies(ParseRange(r.range).value, v)
  }

  lemma AdmittedIff(spelling: Spelling, r: Request, t: Tag)
    requires r.range == "*" || r.range == WINDOW
    ensures t in r.tags && Admitted(spelling, Prefix(r.directory), r.range, t) <==>
      exists v :: OnOffer(spelling, r, t, v)
    ensures forall v :: OnOffer(spelling, r, t, v) ==>
      VersionOf(spelling, Prefix(r.directory), t) == Some(v) && Behind(t.name, Prefix(r.directory)) == PrintCore(v)
  {
    hide ParseRange, RangeSatisfies, InWindow, ParseCore, PrintCore, WellFormed;
    var prefix := Prefix(r.directory);
    if t in r.tags && Admitted(spelling, prefix, r.range, t) {
      var v := VersionOf(spelling, prefix, t).value;
      NameFromVersion(spelling, prefix, t);
      FilterAgreesWithEngine(r.range, v);
      assert OnOffer(spelling, r, t, v);
    }
    forall v | OnOffer(spelling, r, t, v)
      ensures VersionOf(spelling, prefix, t) == Some(v) && Behind(t.name, prefix) == PrintCore(v)
      ensures Admitted(spelling, prefix, r.range, t)
    {
      assert Behind(t.name, prefix) == PrintCore(v);
      StableReads(v);
      FilterAgreesWithEngine(r.range, v);
    }
  }

  lemma StableReads(v: Version)
    requires WellFormed(v) && v.Stable()
    ensures Stable(PrintCore(v)) == Some(v)
  {
    CoreSurvives(v);
  }

  /**
   * Resolving a usable directory answers with the greatest tag on offer: its commit and its version
   * when the commit is proper and its manifest declares that version, and a refusal that says which is wrong.
   */
  lemma ResolveVerdict(spelling: Spelling, r: Request, t: Tag, v: Version)
    requires r.phase == Resolve && (r.range == "*" || r.range == WINDOW) && DistinctNames(r.tags)
    requires DirectoryUsable(spelling, r.directory) && OnOffer(spelling, r, t, v)
    requires forall u, w :: OnOffer(spelling, r, u, w) ==> !TripleBelow(v, w)
    ensures Evaluated(spelling, r) ==
      if !spelling.commitOk(t.commit) then Refuse(ObjectInvalid)
      else if t.manifest != PrintCore(v) then Refuse(ContextVersionMismatch)
      else Verdict(Accept, t.name, t.commit, PrintCore(v), false)
  {
    hide OnOffer, Admitted, VersionOf, ParseRange, PrintCore, DirectoryUsable, Prefix, Behind;
    var prefix := Prefix(r.directory);
    AdmittedIff(spelling, r, t);
    BestIsGreatest(spelling, prefix, r.range, r.tags);
    var best := Best(spelling, prefix, r.range, r.tags).value;
    AdmittedIff(spelling, r, best);
    var w :| OnOffer(spelling, r, best, w);
    SameOffer(spelling, r, t, v, best, w);
  }

  lemma SameOffer(spelling: Spelling, r: Request, t: Tag, v: Version, u: Tag, w: Version)
    requires OnOffer(spelling, r, t, v) && OnOffer(spelling, r, u, w) && DistinctNames(r.tags)
    requires !TripleBelow(v, w) && !TripleBelow(w, v)
    ensures t == u && v == w
  {
    hide ParseRange, RangeSatisfies;
    assert v == w;
    assert t.name == u.name;
  }

  /** With nothing on offer it is a range conflict. */
  lemma NothingOnOffer(spelling: Spelling, r: Request)
    requires r.phase == Resolve && (r.range == "*" || r.range == WINDOW) && DirectoryUsable(spelling, r.directory)
    requires forall t, v :: !OnOffer(spelling, r, t, v)
    ensures Evaluated(spelling, r) == Refuse(ContextRangeConflict)
  {
    hide OnOffer, Admitted, VersionOf, ParseRange, DirectoryUsable, Prefix;
    var best := Best(spelling, Prefix(r.directory), r.range, r.tags);
    if best.Some? { AdmittedIff(spelling, r, best.value); }
  }

  // ------------------------------------------------------------------ replay

  /** The lock an accepted resolution leaves behind. */
  function LockOf(directory: string, v: Verdict): Pin { Pin(directory, v.tag, v.commit, v.version) }

  /** Replaying an accepted resolution gives the same verdict while the tag has not moved, strict or not. */
  lemma ReplayUndoesResolve(spelling: Spelling, r: Request, replay: Request)
    requires r.phase == Resolve && Evaluated(spelling, r).reason == Accept
    requires replay.phase == Replay && replay.directory == r.directory
    requires replay.pin == Some(LockOf(r.directory, Evaluated(spelling, r)))
    requires replay.observed == "" || replay.observed == Evaluated(spelling, r).commit
    ensures Evaluated(spelling, replay) == Evaluated(spelling, r)
  {
    var best := Best(spelling, Prefix(r.directory), r.range, r.tags).value;
    assert best.name == Prefix(r.directory) + Behind(best.name, Prefix(r.directory));
  }

  /** A replay warns exactly when its pin is good, the tag moved, and moving is tolerated. */
  lemma ReplayWarnsIffMoved(spelling: Spelling, r: Request)
    requires r.phase == Replay
    ensures Evaluated(spelling, r).warning
       <==> DirectoryUsable(spelling, r.directory) && PinOk(spelling, r) && Moved(r) && !r.strict
    ensures Evaluated(spelling, r).reason == StrictTagRefused
       <==> DirectoryUsable(spelling, r.directory) && PinOk(spelling, r) && Moved(r) && r.strict
  {
    hide PinOk, DirectoryUsable;
  }

  /** An accepted replay answers with the pin itself, which names a stable version under the directory's prefix. */
  lemma ReplayAnswersPin(spelling: Spelling, r: Request)
    requires r.phase == Replay && Evaluated(spelling, r).reason == Accept
    ensures r.pin.Some? && r.pin.value.directory == r.directory && spelling.commitOk(r.pin.value.commit)
    ensures var pin, verdict := r.pin.value, Evaluated(spelling, r);
      && verdict.tag == pin.tag && verdict.commit == pin.commit && verdict.version == pin.version
      && pin.tag == (if r.directory == "" then "v" else r.directory + "/v") + pin.version
      && exists v :: WellFormed(v) && v.Stable() && pin.version == PrintCore(v)
  {
    hide DirectoryUsable, ParseCore, PrintCore, WellFormed;
    var v := Stable(r.pin.value.version).value;
    CoreRoundTrip(r.pin.value.version, []);
    assert WellFormed(v) && v.Stable() && r.pin.value.version == PrintCore(v);
  }

  /** The other refusals: an unusable directory, a phase or range outside the corpus, a pin that is not in order. */
  lemma OtherRefusals(spelling: Spelling, r: Request)
    ensures !DirectoryUsable(spelling, r.directory) ==> Evaluated(spelling, r) == Refuse(ProfileSourceInvalid)
    ensures DirectoryUsable(spelling, r.directory)
            && (r.phase == OtherPhase || (r.phase == Resolve && r.range !in {"*", ">=0.1.17 <1.0.0"})) ==>
      Evaluated(spelling, r) == Refuse(UnsupportedFixture)
    ensures DirectoryUsable(spelling, r.directory) && r.phase == Replay ==>
      (Evaluated(spelling, r) == Refuse(LockInvalid) <==> !InOrder(spelling, r))
  {
    hide DirectoryUsable, ParseCore, PrintCore, WellFormed;
    if r.pin.Some? {
      var pin := r.pin.value;
      if Stable(pin.version).Some? { CoreRoundTrip(pin.version, []); }
      forall v | WellFormed(v) && v.Stable() && pin.version == PrintCore(v) ensures Stable(pin.version).Some? {
        StableReads(v);
      }
    }
  }

  /** The pin is of the directory, at a proper commit, and names a stable version by a safe tag. */
  ghost predicate InOrder(spelling: Spelling, r: Request) {
    && r.pin.Some? && r.pin.value.directory == r.directory && spelling.commitOk(r.pin.value.commit)
    && spelling.safeTag(r.pin.value.tag)
    && r.pin.value.tag == (if r.directory == "" then "v" else r.directory + "/v") + r.pin.value.version
    && exists v :: WellFormed(v) && v.Stable() && r.pin.value.version == PrintCore(v)
  }
}
