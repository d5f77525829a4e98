/**
 * The user-achievement unlock collection as its schema declares it: every
 * document names a user and an achievement (both required), `unlockedAt`
 * defaults to the time the document is created, `progress` defaults to 0,
 * and a unique compound index on (user, achievement) allows at most one
 * document per pair. Inserts are applied one after another.
 */
module UserAchievement {
  import opened Optional

  /** A database object id. */
  type ObjectId = nat

  /** A point in time, in milliseconds. */
  type Timestamp = int

  /** A stored unlock document. */
  datatype Unlock = Unlock(user: ObjectId, achievement: ObjectId, unlockedAt: Timestamp, progress: int)

  /** The fields a new document is created with; any of them may be left out. */
  datatype Draft = Draft(user: Option<ObjectId>, achievement: Option<ObjectId>,
                         unlockedAt: Option<Timestamp>, progress: Option<int>)

  /** The two paths the schema marks as required. */
  datatype RequiredPath = UserPath | AchievementPath

  datatype InsertError =
    | ValidationFailed(missing: seq<RequiredPath>)  // a required path has no value
    | DuplicateKey                                  // the (user, achievement) index already holds the pair

  datatype InsertResult = Inserted(doc: Unlock) | Rejected(error: InsertError)

  /** The key of the unique compound index. */
  function Key(u: Unlock): (ObjectId, ObjectId) {
    (u.user, u.achievement)
  }

  /** No two documents share a (user, achievement) pair. */
  predicate UniquePairs(docs: seq<Unlock>) {
    forall i, j :: 0 <= i < j < |docs| ==> Key(docs[i]) != Key(docs[j])
  }

  /** The required paths a draft leaves empty, in schema order. */
  function MissingPaths(d: Draft): (m: seq<RequiredPath>)
    ensures UserPath in m <==> d.user.None?
    ensures AchievementPath in m <==> d.achievement.None?
    ensures |m| <= 2 && (m == [] <==> d.user.Some? && d.achievement.Some?)
  {
    (if d.user.None? then [UserPath] else []) + (if d.achievement.None? then [AchievementPath] else [])
  }

  /** The position of a document with the given key at or after `from`, if any. */
  function FindKeyFrom(docs: seq<Unlock>, key: (ObjectId, ObjectId), from: nat): (r: Option<nat>)
    requires from <= |docs|
    ensures r.Some? ==> from <= r.value < |docs| && Key(docs[r.value]) == key
    ensures r.None? ==> forall i :: from <= i < |docs| ==> Key(docs[i]) != key
    decreases |docs| - from
  {
    if from == |docs| then None
    else if Key(docs[from]) == key then Some(from)
    else FindKeyFrom(docs, key, from + 1)
  }

  /** Whether the unique index already holds `key`. */
  function FindKey(docs: seq<Unlock>, key: (ObjectId, ObjectId)): (r: Option<nat>)
    ensures r.Some? ==> r.value < |docs| && Key(docs[r.value]) == key
    ensures r.None? <==> forall i :: 0 <= i < |docs| ==> Key(docs[i]) != key
  {
    FindKeyFrom(docs, key, 0)
  }

  /**
   * What saving a draft into `docs` at time `now` gives. Validation comes
   * first and reports every missing required path; then the unique index
   * refuses a pair it already holds; otherwise the document is created with
   * the given values and the defaults for what was left out.
   */
  function InsertOutcome(docs: seq<Unlock>, d: Draft, now: Timestamp): (r: InsertResult)
    ensures r.Rejected? && r.error.ValidationFailed? <==> d.user.None? || d.achievement.None?
    ensures r.Rejected? && r.error.ValidationFailed? ==> r.error.missing == MissingPaths(d)
    ensures r == Rejected(DuplicateKey) <==>
              && d.user.Some? && d.achievement.Some?
              && exists i :: 0 <= i < |docs| && Key(docs[i]) == (d.user.value, d.achievement.value)
    ensures r.Inserted? ==>
              && r.doc.user == d.user.value && r.doc.achievement == d.achievement.value
              && r.doc.unlockedAt == (if d.unlockedAt.Some? then d.unlockedAt.value else now)
              && r.doc.progress == (if d.progress.Some? then d.progress.value else 0)
              && forall i :: 0 <= i < |docs| ==> Key(docs[i]) != Key(r.doc)
  {
    if d.user.None? || d.achievement.None? then
      Rejected(ValidationFailed(MissingPaths(d)))
    else if FindKey(docs, (d.user.value, d.achievement.value)).Some? then
      Rejected(DuplicateKey)
    else
      Inserted(Unlock(d.user.value, d.achievement.value,
                      if d.unlockedAt.Some? then d.unlockedAt.value else now,
                      if d.progress.Some? then d.progress.value else 0))
  }

  /**
   * The collection after the insert: one document more on success, exactly
   * as before on any rejection; existing documents are never altered.
   */
  function AfterInsert(docs: seq<Unlock>, d: Draft, now: Timestamp): (r: seq<Unlock>)
    ensures InsertOutcome(docs, d, now).Rejected? ==> r == docs
    ensures InsertOutcome(docs, d, now).Inserted? ==>
              |r| == |docs| + 1 && r[..|docs|] == docs && r[|docs|] == InsertOutcome(docs, d, now).doc
    ensures UniquePairs(docs) ==> UniquePairs(r)
  {
    match InsertOutcome(docs, d, now)
    case Rejected(_) => docs
    case Inserted(doc) =>
      assert (docs + [doc])[..|docs|] == docs;
      docs + [doc]
  }

  /** The collection after a series of inserts, one at a time, at time `now`. */
  function AfterInserts(docs: seq<Unlock>, drafts: seq<Draft>, now: Timestamp): seq<Unlock>
    decreases |drafts|
  {
    if drafts == [] then docs else AfterInserts(AfterInsert(docs, drafts[0], now), drafts[1..], now)
  }

  /** Any series of inserts into an empty or valid collection keeps the pairs unique. */
  lemma {:induction false} InsertsKeepPairsUnique(docs: seq<Unlock>, drafts: seq<Draft>, now: Timestamp)
    requires UniquePairs(docs)
    ensures UniquePairs(AfterInserts(docs, drafts, now))
    decreases |drafts|
  {
    if drafts != [] {
      InsertsKeepPairsUnique(AfterInsert(docs, drafts[0], now), drafts[1..], now);
    }
  }

  /** How many documents hold the pair `key`. */
  function CountKey(docs: seq<Unlock>, key: (ObjectId, ObjectId)): nat {
    if docs == [] then 0
    else (if Key(docs[0]) == key then 1 else 0) + CountKey(docs[1..], key)
  }

  lemma {:induction false} CountKeyAppend(docs: seq<Unlock>, doc: Unlock, key: (ObjectId, ObjectId))
    ensures CountKey(docs + [doc], key) == CountKey(docs, key) + (if Key(doc) == key then 1 else 0)
  {
    if docs != [] {
      assert (docs + [doc])[1..] == docs[1..] + [doc];
      CountKeyAppend(docs[1..], doc, key);
    }
  }

  lemma {:induction false} CountKeyZero(docs: seq<Unlock>, key: (ObjectId, ObjectId))
    ensures CountKey(docs, key) == 0 <==> forall i :: 0 <= i < |docs| ==> Key(docs[i]) != key
  {
    if docs != [] {
      CountKeyZero(docs[1..], key);
      assert forall i :: 1 <= i < |docs| ==> docs[i] == docs[1..][i - 1];
    }
  }

  /** In a collection with unique pairs, every pair is unlocked at most once. */
  lemma {:induction false} AtMostOneUnlockPerPair(docs: seq<Unlock>, key: (ObjectId, ObjectId))
    requires UniquePairs(docs)
    ensures CountKey(docs, key) <= 1
  {
    if docs != [] {
      assert UniquePairs(docs[1..]) by {
        forall i, j | 0 <= i < j < |docs| - 1 ensures Key(docs[1..][i]) != Key(docs[1..][j]) {
          assert docs[1..][i] == docs[i + 1] && docs[1..][j] == docs[j + 1];
        }
      }
      AtMostOneUnlockPerPair(docs[1..], key);
      if Key(docs[0]) == key {
        CountKeyZero(docs[1..], key);
        forall i | 0 <= i < |docs| - 1 ensures Key(docs[1..][i]) != key {
          assert docs[1..][i] == docs[i + 1];
        }
      }
    }
  }

  /**
   * Saving the same (user, achievement) pair any number of times, one save
   * after another, leaves exactly one document for the pair, whether or not
   * the collection held it before.
   */
  lemma {:induction false} RepeatedUnlockStoredOnce(docs: seq<Unlock>, drafts: seq<Draft>,
                                                    user: ObjectId, achievement: ObjectId, now: Timestamp)
    requires |drafts| >= 1
    requires forall k :: 0 <= k < |drafts| ==> drafts[k].user == Some(user) && drafts[k].achievement == Some(achievement)
    requires UniquePairs(docs)
    ensures CountKey(AfterInserts(docs, drafts, now), (user, achievement)) == 1
    decreases |drafts|
  {
    var key := (user, achievement);
    var next := AfterInsert(docs, drafts[0], now);
    AtMostOneUnlockPerPair(docs, key);
    CountKeyZero(docs, key);
    match InsertOutcome(docs, drafts[0], now) {
      case Inserted(doc) => CountKeyAppend(docs, doc, key);
      case Rejected(_) =>
    }
    assert CountKey(next, key) == 1;
    if |drafts| > 1 {
      RepeatedUnlockStoredOnce(next, drafts[1..], user, achievement, now);
    } else {
      assert AfterInserts(next, drafts[1..], now) == next;
    }
  }

  /** The stored unlock documents. */
  class UnlockCollection {
    var docs: seq<Unlock>

    ghost predicate Valid()
      reads this
    {
      UniquePairs(docs)
    }

    constructor ()
      ensures Valid() && docs == []
    {
      docs := [];
    }

    /**
     * Creates and saves a document from `d` at time `now`: required paths are
     * validated first, then the unique (user, achievement) index is checked;
     * only a success changes the collection, by appending the new document.
     */
    method Insert(d: Draft, now: Timestamp) returns (r: InsertResult)
      requires Valid()
      modifies this
      ensures Valid()
      ensures r == InsertOutcome(old(docs), d, now)
      ensures docs == AfterInsert(old(docs), d, now)
    {
      if d.user.None? || d.achievement.None? {
        return Rejected(ValidationFailed(MissingPaths(d)));
      }
      var key := (d.user.value, d.achievement.value);
      if FindKey(docs, key).Some? {
        return Rejected(DuplicateKey);
      }
      var doc := Unlock(key.0, key.1,
                        if d.unlockedAt.Some? then d.unlockedAt.value else now,
                        if d.progress.Some? then d.progress.value else 0);
      docs := docs + [doc];
      r := Inserted(doc);
    }
  }
}
