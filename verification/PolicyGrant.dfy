/** Revoking a policy's grants: durable records first, then cleanup of the keys nothing else holds. */
module PolicyGrant {
  import opened Wrappers

  datatype Status = Active | Lapsed | Revoked

  /** The author is absent exactly when the policy lapsed by itself. */
  datatype Standing = Standing(status: Status, time: int, reason: string, author: Option<string>)

  datatype Record = Record(
    entryId: string, grantId: string, issuer: Option<string>, time: int, reviewBy: int, state: Standing,
      history: seq<Standing>)

  /** A journalled key and the grants that hold it. */
  datatype JournalKey = JournalKey(grantIds: set<string>, ownedUnchanged: bool, readable: bool, present: bool,
    pendingCleanup: bool)

  // ------------------------------------------------------------ specification

  function RevokeOne(r: Record, entryId: string, next: Standing): Record {
    if r.entryId == entryId && r.state.status != Revoked then r.(history := r.history + [r.state], state := next) else r
  }

  function RevokeRecords(records: seq<Record>, entryId: string, next: Standing): (after: seq<Record>)
    ensures |after| == |records| && forall i :: 0 <= i < |records| ==> after[i] == RevokeOne(records[i], entryId, next)
  {
    seq(|records|, i requires 0 <= i < |records| => RevokeOne(records[i], entryId, next))
  }

  function Affected(records: seq<Record>, entryId: string): set<string> {
    set r | r in records && r.entryId == entryId :: r.grantId
  }

  function ActiveGrants(records: seq<Record>): set<string> {
    set r | r in records && r.state.status == Active :: r.grantId
  }

  /** An affected grant holds the key and no grant that is still active does. */
  predicate Touched(key: JournalKey, affected: set<string>, active: set<string>) {
    affected * key.grantIds != {} && active * key.grantIds == {}
  }

  function CleanUp(key: JournalKey): JournalKey {
    if key.ownedUnchanged && key.readable then key.(present := false, pendingCleanup := false)
      else key.(pendingCleanup := true)
  }

  function CleanJournal(journal: seq<JournalKey>, affected: set<string>, active: set<string>): (after: seq<JournalKey>)
    ensures |after| == |journal|
    ensures
      forall i :: 0 <= i < |journal|
        ==> after[i] == if Touched(journal[i], affected, active) then CleanUp(journal[i]) else journal[i]
  {
    seq(|journal|, i requires 0 <= i < |journal| => if Touched(journal[i], affected, active) then CleanUp(journal[i])
      else journal[i])
  }

  datatype Books = Books(records: seq<Record>, journal: seq<JournalKey>)

  function Revoke(books: Books, entryId: string, next: Standing): Books {
    var records := RevokeRecords(books.records, entryId, next);
    Books(records, CleanJournal(books.journal, Affected(books.records, entryId), ActiveGrants(records)))
  }

  /** revoke as it runs, over copies of the records and the journal. */
  method RevokeLoop(books: Books, entryId: string, issuer: Option<string>, time: int, reason: string)
    returns (after: Books)
    ensures after == Revoke(books, entryId, Standing(Revoked, time, reason, issuer))
  {
    var next := Standing(Revoked, time, reason, issuer);
    var records, journal := books.records, books.journal;
    var affected: set<string> := {};
    for i := 0 to |records|
      invariant |records| == |books.records|
      invariant forall j :: 0 <= j < i ==> records[j] == RevokeOne(books.records[j], entryId, next)
      invariant forall j :: i <= j < |records| ==> records[j] == books.records[j]
      invariant forall g :: g in affected <==>
        exists j :: 0 <= j < i && books.records[j].entryId == entryId && books.records[j].grantId == g
    {
      if records[i].entryId == entryId {
        affected := affected + {records[i].grantId};
        if records[i].state.status != Revoked {
          records := records[i := records[i].(history := records[i].history + [records[i].state], state := next)];
        }
      }
    }
    assert records == RevokeRecords(books.records, entryId, next);
    assert affected == Affected(books.records, entryId);
    var active := set r | r in records && r.state.status == Active :: r.grantId;
    for i := 0 to |journal|
      invariant |journal| == |books.journal|
      invariant forall j :: 0 <= j < i ==>
        journal[j] == if Touched(books.journal[j], affected, active) then CleanUp(books.journal[j])
          else books.journal[j]
      invariant forall j :: i <= j < |journal| ==> journal[j] == books.journal[j]
    {
      var key := journal[i];
      if affected * key.grantIds != {} && active * key.grantIds == {} {
        if key.ownedUnchanged && key.readable {
          journal := journal[i := key.(present := false, pendingCleanup := false)];
        } else {
          journal := journal[i := key.(pendingCleanup := true)];
        }
      }
    }
    assert journal == CleanJournal(books.journal, affected, active);
    after := Books(records, journal);
  }

  // ---------------------------------------------------------------- records

  /** Records of other entries stay as they are. */
  lemma OthersUntouched(books: Books, entryId: string, next: Standing, i: nat)
    requires i < |books.records| && books.records[i].entryId != entryId
    ensures Revoke(books, entryId, next).records[i] == books.records[i]
  {}

  /** Every record of the entry is revoked, with its past kept; one that was revoked already stays as it was. */
  lemma EntryIsRevoked(books: Books, entryId: string, next: Standing, i: nat)
    requires i < |books.records| && books.records[i].entryId == entryId && next.status == Revoked
    ensures var r, after := books.records[i], Revoke(books, entryId, next).records[i];
      && after.state.status == Revoked && after == r.(state := after.state, history := after.history)
      && if r.state.status == Revoked then after == r else after.state == next && after.history == r.history + [r.state]
  {}

  lemma RevokedTwice(records: seq<Record>, entryId: string, next: Standing, again: Standing)
    requires next.status == Revoked
    ensures RevokeRecords(RevokeRecords(records, entryId, next), entryId, again)
      == RevokeRecords(records, entryId, next)
  {}

  lemma RevokedEitherWay(records: seq<Record>, a: string, nextA: Standing, b: string, nextB: Standing)
    requires a != b
    ensures RevokeRecords(RevokeRecords(records, a, nextA), b, nextB)
      == RevokeRecords(RevokeRecords(records, b, nextB), a, nextA)
  {}

  lemma RevokingKeepsAffected(records: seq<Record>, a: string, next: Standing, b: string)
    ensures Affected(RevokeRecords(records, a, next), b) == Affected(records, b)
  {
    var after := RevokeRecords(records, a, next);
    forall g ensures g in Affected(after, b) <==> g in Affected(records, b) {
      if g in Affected(after, b) {
        var r :| r in after && r.entryId == b && r.grantId == g;
        var i :| 0 <= i < |after| && after[i] == r;
        assert records[i] in records;
      }
      if g in Affected(records, b) {
        var r :| r in records && r.entryId == b && r.grantId == g;
        var i :| 0 <= i < |records| && records[i] == r;
        assert after[i] in after;
      }
    }
  }

  /** A grant that is no longer active after a revocation was affected by it. */
  lemma ActiveOnlyShrinksByAffected(records: seq<Record>, entryId: string, next: Standing)
    requires next.status == Revoked
    ensures ActiveGrants(RevokeRecords(records, entryId, next)) <= ActiveGrants(records)
    ensures ActiveGrants(records) - ActiveGrants(RevokeRecords(records, entryId, next)) <= Affected(records, entryId)
  {
    var after := RevokeRecords(records, entryId, next);
    forall g | g in ActiveGrants(after) ensures g in ActiveGrants(records) {
      var r :| r in after && r.state.status == Active && r.grantId == g;
      var i :| 0 <= i < |after| && after[i] == r;
      assert records[i] in records;
    }
    forall g | g in ActiveGrants(records) && g !in ActiveGrants(after) ensures g in Affected(records, entryId) {
      var r :| r in records && r.state.status == Active && r.grantId == g;
      var i :| 0 <= i < |records| && records[i] == r;
      assert after[i] in after;
    }
  }

  // ---------------------------------------------------------------- journal

  /** Some record of the entry holds the key, and no record that is active after the revocation does. */
  predicate LosesItsGrants(before: seq<Record>, after: seq<Record>, entryId: string, key: JournalKey) {
    && (exists r :: r in before && r.entryId == entryId && r.grantId in key.grantIds)
    && forall r :: r in after && r.state.status == Active ==> r.grantId !in key.grantIds
  }

  lemma TouchedIff(before: seq<Record>, after: seq<Record>, entryId: string, key: JournalKey)
    ensures Touched(key, Affected(before, entryId), ActiveGrants(after)) <==>
      LosesItsGrants(before, after, entryId, key)
  {
    var affected, active := Affected(before, entryId), ActiveGrants(after);
    assert affected * key.grantIds != {} ==> exists g :: g in affected * key.grantIds;
    assert active * key.grantIds != {} ==> exists g :: g in active * key.grantIds;
    assert forall r :: r in before && r.entryId == entryId && r.grantId in key.grantIds ==>
      r.grantId in affected * key.grantIds;
    assert forall r :: r in after && r.state.status == Active && r.grantId in key.grantIds ==>
      r.grantId in active * key.grantIds;
  }

  /**
   * A key changes exactly when it loses its grants: it is gone when it is owned, unchanged and
   * readable, and otherwise stays present or absent as it was and is left pending.
   */
  lemma TouchedExactly(books: Books, entryId: string, next: Standing, i: nat)
    requires i < |books.journal|
    ensures var after := Revoke(books, entryId, next); var key, left := books.journal[i], after.journal[i];
      if !LosesItsGrants(books.records, after.records, entryId, key) then left == key
      else
        && left.grantIds == key.grantIds && left.ownedUnchanged == key.ownedUnchanged && left.readable == key.readable
        && if key.ownedUnchanged && key.readable then !left.present && !left.pendingCleanup
           else left.present == key.present && left.pendingCleanup
  {
    var after := Revoke(books, entryId, next);
    TouchedIff(books.records, after.records, entryId, books.journal[i]);
  }

  /** Revoking an entry again, by anyone and at any time, changes nothing. */
  lemma RevokeIsIdempotent(books: Books, entryId: string, next: Standing, again: Standing)
    requires next.status == Revoked
    ensures Revoke(Revoke(books, entryId, next), entryId, again) == Revoke(books, entryId, next)
  {
    var once := Revoke(books, entryId, next);
    var twice := Revoke(once, entryId, again);
    RevokedTwice(books.records, entryId, next, again);
    RevokingKeepsAffected(books.records, entryId, next, entryId);
    forall i | 0 <= i < |books.journal| ensures twice.journal[i] == once.journal[i] {}
    assert twice.journal == once.journal;
  }

  function TouchIf(key: JournalKey, touched: bool): JournalKey { if touched then CleanUp(key) else key }

  /** The second of two revocations cleans a key the first had to leave exactly when either alone would now. */
  lemma TouchedEitherWay(key: JournalKey, a: set<string>, b: set<string>, active: set<string>, afterA: set<string>,
    afterBoth: set<string>)
    requires afterBoth <= afterA <= active && afterA - afterBoth <= b
    ensures TouchIf(TouchIf(key, Touched(key, a, afterA)), Touched(key, b, afterBoth))
      == TouchIf(key, Touched(key, a + b, afterBoth))
  {
    var ids := key.grantIds;
    assert afterA * ids == {} ==> afterBoth * ids == {};
    assert (a + b) * ids == a * ids + b * ids;
    if afterA * ids != {} && afterBoth * ids == {} {
      var g :| g in afterA * ids;
      assert g !in afterBoth * ids;
      assert g in b * ids;
    }
  }

  lemma JournalAfterBoth(books: Books, a: string, nextA: Standing, b: string, nextB: Standing, i: nat)
    requires nextA.status == Revoked && nextB.status == Revoked && i < |books.journal|
    ensures var both := Revoke(Revoke(books, a, nextA), b, nextB);
      both.journal[i] == TouchIf(books.journal[i],
        Touched(books.journal[i], Affected(books.records, a) + Affected(books.records, b), ActiveGrants(both.records)))
  {
    var first := RevokeRecords(books.records, a, nextA);
    var both := RevokeRecords(first, b, nextB);
    RevokingKeepsAffected(books.records, a, nextA, b);
    ActiveOnlyShrinksByAffected(books.records, a, nextA);
    ActiveOnlyShrinksByAffected(first, b, nextB);
    TouchedEitherWay(books.journal[i], Affected(books.records, a), Affected(books.records, b),
                     ActiveGrants(books.records), ActiveGrants(first), ActiveGrants(both));
  }

  /** Revocations of different entries commute. */
  lemma RevokesCommute(books: Books, a: string, nextA: Standing, b: string, nextB: Standing)
    requires a != b && nextA.status == Revoked && nextB.status == Revoked
    ensures Revoke(Revoke(books, a, nextA), b, nextB) == Revoke(Revoke(books, b, nextB), a, nextA)
  {
    var ab := Revoke(Revoke(books, a, nextA), b, nextB);
    var ba := Revoke(Revoke(books, b, nextB), a, nextA);
    RevokedEitherWay(books.records, a, nextA, b, nextB);
    var one, two := Affected(books.records, a), Affected(books.records, b);
    assert one + two == two + one;
    forall i | 0 <= i < |books.journal| ensures ab.journal[i] == ba.journal[i] {
      JournalAfterBoth(books, a, nextA, b, nextB, i);
      JournalAfterBoth(books, b, nextB, a, nextA, i);
    }
    assert ab.journal == ba.journal;
  }

  // ---------------------------------------------------------------- history

  function Standings(r: Record): seq<Standing> { r.history + [r.state] }

  function StatusesOf(ss: seq<Standing>): seq<Status> { seq(|ss|, i requires 0 <= i < |ss| => ss[i].status) }

  /** The history rules of the record check. */
  predicate HistoryOk(r: Record) {
    var ss := Standings(r);
    && StatusesOf(ss) in {[Active], [Active, Revoked], [Active, Lapsed], [Active, Lapsed, Revoked]}
    && (forall i, j :: 0 <= i < j < |ss| ==> ss[i].time <= ss[j].time)
    && ss[0].time == r.time && ss[0].author == r.issuer && r.reviewBy > r.time
    && forall i :: 0 <= i < |ss| ==> (ss[i].author.None? <==> ss[i].status == Lapsed)
  }

  /** A revocation keeps a standing record's history valid exactly when it is not backdated and names its issuer. */
  lemma RevokeKeepsHistoryIff(r: Record, next: Standing)
    requires HistoryOk(r) && r.state.status != Revoked && next.status == Revoked
    ensures HistoryOk(RevokeOne(r, r.entryId, next)) <==> r.state.time <= next.time && next.author.Some?
  {
    var ss := Standings(r);
    var longer := Standings(RevokeOne(r, r.entryId, next));
    assert longer == ss + [next];
    var statuses := StatusesOf(ss);
    assert statuses[|r.history|] == r.state.status && |statuses| == |ss|;
    assert statuses == if r.state.status == Active then [Active] else [Active, Lapsed];
    assert StatusesOf(longer) == statuses + [Revoked];
    assert longer[|ss|] == next && longer[|ss| - 1] == r.state && longer[0] == ss[0];
    forall i | 0 <= i < |ss| ensures longer[i] == ss[i] && ss[i].time <= r.state.time {
      assert ss[|ss| - 1] == r.state;
    }
    if r.state.time <= next.time && next.author.Some? {
      forall i, j | 0 <= i < j < |longer| ensures longer[i].time <= longer[j].time {
        if j < |ss| { assert ss[i].time <= ss[j].time; }
      }
      assert statuses + [Revoked] == if r.state.status == Active then [Active, Revoked] else [Active, Lapsed, Revoked];
    } else {
      assert longer[|ss| - 1].time > longer[|ss|].time || (longer[|ss|].author.None? && longer[|ss|].status != Lapsed);
    }
  }
}
