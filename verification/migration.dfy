/** The one-off backfill of the recommendation fields
    (types/migrate_dish_data.py).

    A stored document is a map from field name to a BSON-like value.  Each pass
    reads a snapshot of a collection, computes for every document a partial
    update (`$set` of the fields that need to change) and writes it only when it
    is non-empty.  The driver runs the dish pass, the user-activity pass and the
    index creation in that order and stops at the first exception.

    Database calls become pure functions over sequences of documents; a write
    that fails is given by the set of document keys whose update raises; the
    wall clock (`datetime.utcnow()`) is a parameter. */
module Migration {
  import opened Wrappers

  // ---------------------------------------------------------------------------
  // Values and documents

  /** The values a stored field can hold, as Python sees them after decoding. */
  datatype Value =
    | VNull
    | VBool(b: bool)
    | VInt(i: int)
    | VFloat(f: real)
    | VStr(s: string)
    | VList(items: seq<Value>)
    | VDoc(fields: map<string, Value>)
    | VTime(t: int)

  type Record = map<string, Value>
  type Update = map<string, Value>
  type Key = int

  /** A document of a collection: its `_id` and its other fields. */
  datatype Doc = Doc(id: Key, fields: Record)

  /** The exceptions a pass can raise. */
  datatype PyError =
    | TypeError          // iterating, summing or taking `len` of the wrong kind of value
    | AttributeError     // `.get` on a rating entry that is not a sub-document
    | WriteError(key: Key)
    | DuplicateKey       // the unique index on `user_id` meets two equal values

  /** Python truthiness. */
  predicate Truthy(v: Value) {
    match v
    case VNull => false
    case VBool(b) => b
    case VInt(i) => i != 0
    case VFloat(f) => f != 0.0
    case VStr(s) => s != ""
    case VList(l) => l != []
    case VDoc(m) => m != map[]
    case VTime(_) => true
  }

  /** `len(v)`; only strings, lists and sub-documents have a length. */
  function Len(v: Value): Result<nat, PyError> {
    match v
    case VStr(s) => Success(|s|)
    case VList(l) => Success(|l|)
    case VDoc(m) => Success(|m.Keys|)
    case _ => Failure(TypeError)
  }

  /** `dict.get(field, default)`. */
  function Get(r: Record, field: string, default: Value): Value {
    if field in r then r[field] else default
  }

  /** The `$set` operator: the update's fields replace or extend the record's. */
  function Apply(r: Record, u: Update): Record {
    r + u
  }

  // ---------------------------------------------------------------------------
  // Average rating

  /** `r.get("rating", 0)` converted for `sum`: booleans count as 0/1. */
  function RatingOf(entry: Value): Result<real, PyError> {
    match entry
    case VDoc(m) =>
      (match Get(m, "rating", VInt(0))
       case VInt(i) => Success(i as real)
       case VFloat(f) => Success(f)
       case VBool(b) => Success(if b then 1.0 else 0.0)
       case _ => Failure(TypeError))
    case _ => Failure(AttributeError)
  }

  /** `sum(r.get("rating", 0) for r in entries)`, failing at the first bad entry. */
  function SumRatings(entries: seq<Value>): Result<real, PyError> {
    if entries == [] then Success(0.0)
    else
      match RatingOf(entries[0])
      case Failure(e) => Failure(e)
      case Success(x) =>
        match SumRatings(entries[1..])
        case Failure(e) => Failure(e)
        case Success(rest) => Success(x + rest)
  }

  /** Round half to even at the integer level, the rule of Python's `round`. */
  function RoundHalfEven(y: real): (n: int)
    ensures (n as real) - 0.5 <= y <= (n as real) + 0.5
    ensures y - y.Floor as real != 0.5 ==> (n as real) - 0.5 < y < (n as real) + 0.5
    ensures y - y.Floor as real == 0.5 ==> n % 2 == 0
  {
    var f := y.Floor;
    var frac := y - f as real;
    if frac < 0.5 then f
    else if frac > 0.5 then f + 1
    else if f % 2 == 0 then f else f + 1
  }

  /** `round(x, 2)` on exact rationals: the nearest multiple of 0.01. */
  function Round2(x: real): (r: real)
    ensures x - 0.005 <= r <= x + 0.005
    ensures (r * 100.0).Floor as real == r * 100.0
  {
    var n := RoundHalfEven(x * 100.0);
    var r := n as real / 100.0;
    assert r * 100.0 == n as real;
    r
  }

  /** Rounding is the identity on values that already have two decimals. */
  lemma Round2OfHundredths(k: int)
    ensures Round2(k as real / 100.0) == k as real / 100.0
  {
    assert (k as real / 100.0) * 100.0 == k as real;
  }

  /** The ratings a dish is averaged over: `dish.get("ratings", [])`. */
  function StoredRatings(dish: Record): Value {
    Get(dish, "ratings", VList([]))
  }

  /** The rounded mean of a non-empty ratings list, or the exception it raises. */
  function AverageRating(ratings: Value): Result<real, PyError>
    requires Truthy(ratings)
  {
    match ratings
    case VList(l) =>
      (match SumRatings(l)
       case Failure(e) => Failure(e)
       case Success(total) => Success(Round2(total / (|l| as real))))
    case VStr(_) => Failure(AttributeError)   // iterating a string yields strings, which have no `.get`
    case VDoc(_) => Failure(AttributeError)   // iterating a dict yields its string keys
    case _ => Failure(TypeError)              // not iterable
  }

  // ---------------------------------------------------------------------------
  // The dish normaliser (the body of the loop in `migrate_dishes`)

  /** The fields the dish pass may set. */
  const DishFields: set<string> :=
    {"view_count", "ratings", "average_rating", "like_count", "cook_count"}

  /** `len(liked_by) if liked_by else 0` for `liked_by = dish.get("liked_by", [])`. */
  function LikeCount(dish: Record): Result<nat, PyError> {
    var likedBy := Get(dish, "liked_by", VList([]));
    if Truthy(likedBy) then Len(likedBy) else Success(0)
  }

  /** The partial update computed for one dish, or the exception the loop body raises.
      Every rule reads the original snapshot, not the rules' earlier output. */
  function DishUpdate(dish: Record): Result<Update, PyError> {
    var u1: Update := if "view_count" !in dish then map["view_count" := VInt(0)] else map[];
    var u2 := if "ratings" !in dish || dish["ratings"] == VNull then u1["ratings" := VList([])] else u1;
    var ratings := StoredRatings(dish);
    var avg: Result<Update, PyError> :=
      if Truthy(ratings) then
        (match AverageRating(ratings)
         case Failure(e) => Failure(e)
         case Success(a) => Success(u2["average_rating" := VFloat(a)]))
      else if "average_rating" !in dish then Success(u2["average_rating" := VFloat(0.0)])
      else Success(u2);
    match avg
    case Failure(e) => Failure(e)
    case Success(u3) =>
      var like: Result<Update, PyError> :=
        if "like_count" !in dish then
          (match LikeCount(dish)
           case Failure(e) => Failure(e)
           case Success(n) => Success(u3["like_count" := VInt(n)]))
        else Success(u3);
      match like
      case Failure(e) => Failure(e)
      case Success(u4) =>
        Success(if "cook_count" !in dish then u4["cook_count" := VInt(0)] else u4)
  }

  /** The loop body raises exactly when the stored ratings are truthy but cannot be
      averaged, or when `like_count` is missing and `liked_by` is truthy but has no length. */
  lemma DishUpdateFailsIff(dish: Record)
    ensures DishUpdate(dish).Failure? <==>
              (Truthy(StoredRatings(dish)) && AverageRating(StoredRatings(dish)).Failure?)
              || ("like_count" !in dish && LikeCount(dish).Failure?)
  {
  }

  /** Each rule of the dish normaliser, stated field by field. */
  lemma DishUpdateRules(dish: Record, u: Update)
    requires DishUpdate(dish) == Success(u)
    ensures u.Keys <= DishFields
    // view_count and cook_count: 0 exactly when missing, never overwritten
    ensures ("view_count" in u <==> "view_count" !in dish)
    ensures "view_count" in u ==> u["view_count"] == VInt(0)
    ensures ("cook_count" in u <==> "cook_count" !in dish)
    ensures "cook_count" in u ==> u["cook_count"] == VInt(0)
    // ratings: [] exactly when missing or None
    ensures ("ratings" in u <==> ("ratings" !in dish || dish["ratings"] == VNull))
    ensures "ratings" in u ==> u["ratings"] == VList([])
    // average_rating: recomputed whenever ratings are truthy, even when already stored
    ensures Truthy(StoredRatings(dish)) ==>
              "average_rating" in u && u["average_rating"].VFloat?
              && AverageRating(StoredRatings(dish)) == Success(u["average_rating"].f)
    ensures !Truthy(StoredRatings(dish)) ==>
              (("average_rating" in u <==> "average_rating" !in dish)
               && ("average_rating" in u ==> u["average_rating"] == VFloat(0.0)))
    // like_count: derived from liked_by exactly when missing
    ensures ("like_count" in u <==> "like_count" !in dish)
    ensures "like_count" in u ==> u["like_count"].VInt? && LikeCount(dish) == Success(u["like_count"].i)
  {
  }

  /** Of the dish fields, only `average_rating` (and a `ratings` that holds None)
      can be overwritten: every other field in the update was missing. */
  lemma DishUpdateOverwrites(dish: Record, u: Update)
    requires DishUpdate(dish) == Success(u)
    ensures forall f :: f in u && f in dish ==>
              f == "average_rating" || (f == "ratings" && dish[f] == VNull)
  {
    DishUpdateRules(dish, u);
  }

  /** The dish normaliser is NOT idempotent: after its update is applied, a second
      run succeeds and is empty exactly when the ratings are falsy.  When it is not
      empty it rewrites `average_rating` with the value already stored, so the second
      write changes nothing but is still issued. */
  lemma DishSecondPass(dish: Record, u: Update)
    requires DishUpdate(dish) == Success(u)
    ensures var d1 := Apply(dish, u);
            DishUpdate(d1).Success?
            && (DishUpdate(d1).value == map[] <==> !Truthy(StoredRatings(d1)))
            && Apply(d1, DishUpdate(d1).value) == d1
  {
    DishUpdateRules(dish, u);
    var d1 := Apply(dish, u);
    var ratings := StoredRatings(dish);
    if Truthy(ratings) {
      assert StoredRatings(d1) == ratings;
    } else {
      assert !Truthy(StoredRatings(d1));
    }
    assert DishUpdate(d1).Success?;
    var u2 := DishUpdate(d1).value;
    DishUpdateRules(d1, u2);
    if Truthy(StoredRatings(d1)) {
      assert u2 == map["average_rating" := d1["average_rating"]];
    } else {
      assert u2 == map[];
    }
  }

  /** For a dish whose ratings are missing, None or a list: the second run is empty
      exactly when that list is empty (or was missing). */
  lemma DishSecondPassEmptyIffNoRatings(dish: Record, u: Update)
    requires DishUpdate(dish) == Success(u)
    requires "ratings" in dish ==> dish["ratings"] == VNull || dish["ratings"].VList?
    ensures DishUpdate(Apply(dish, u)).Success?
    ensures DishUpdate(Apply(dish, u)).value == map[] <==>
              ("ratings" !in dish || dish["ratings"] == VNull || dish["ratings"] == VList([]))
  {
    DishSecondPass(dish, u);
    DishUpdateRules(dish, u);
  }

  /** A stale stored average is corrected: ratings [{rating: 5}] and a stored
      average of 1.0 give an update of 5.0. */
  lemma StaleAverageIsRecomputed()
    ensures var dish := map["ratings" := VList([VDoc(map["rating" := VInt(5)])]),
                            "average_rating" := VFloat(1.0),
                            "view_count" := VInt(0), "like_count" := VInt(0), "cook_count" := VInt(0)];
            DishUpdate(dish) == Success(map["average_rating" := VFloat(5.0)])
  {
    var l := [VDoc(map["rating" := VInt(5)])];
    assert SumRatings(l) == Success(5.0) by {
      assert l[1..] == [];
    }
    assert Round2(5.0) == 5.0 by {
      assert RoundHalfEven(500.0) == 500;
    }
  }

  // ---------------------------------------------------------------------------
  // The user-activity normaliser (the body of the loop in `migrate_user_activities`)

  const ActivityListFields: seq<string> :=
    ["favorite_dishes", "cooked_dishes", "viewed_dishes", "created_recipes",
     "created_dishes", "viewed_dishes_and_users"]

  /** Missing list fields become [] and a missing `updated_at` becomes `now`. */
  function ActivityUpdate(activity: Record, now: int): (u: Update)
    ensures forall f :: f in u <==> (f in ActivityListFields || f == "updated_at") && f !in activity
    ensures forall f :: f in u && f != "updated_at" ==> u[f] == VList([])
    ensures "updated_at" in u ==> u["updated_at"] == VTime(now)
  {
    var lists := map f | f in ActivityListFields && f !in activity :: VList([]);
    if "updated_at" !in activity then lists["updated_at" := VTime(now)] else lists
  }

  /** Every field of the canonical activity shape is present after the update. */
  lemma ActivityUpdateCompletes(activity: Record, now: int)
    ensures var a1 := Apply(activity, ActivityUpdate(activity, now));
            "updated_at" in a1 && forall k :: 0 <= k < |ActivityListFields| ==> ActivityListFields[k] in a1
    ensures forall k :: 0 <= k < |ActivityListFields| ==>
              (ActivityListFields[k] in ActivityUpdate(activity, now) <==> ActivityListFields[k] !in activity)
    ensures var a1 := Apply(activity, ActivityUpdate(activity, now));
            forall f :: f in a1 ==>
              a1[f] == (if f in activity then activity[f]
                        else if f == "updated_at" then VTime(now) else VList([]))
  {
  }

  /** The activity normaliser is idempotent, whatever the clock reads the second time. */
  lemma ActivityIdempotent(activity: Record, now: int, later: int)
    ensures ActivityUpdate(Apply(activity, ActivityUpdate(activity, now)), later) == map[]
  {
    ActivityUpdateCompletes(activity, now);
  }

  /** Normaliser of the activity pass in the shape the collection pass expects. */
  function ActivityNormaliser(now: int): Record -> Result<Update, PyError> {
    (r: Record) => Success(ActivityUpdate(r, now))
  }

  // ---------------------------------------------------------------------------
  // The collection pass: normalise, write when non-empty, count

  datatype PassResult =
    | Completed(docs: seq<Doc>, total: nat, updated: nat)
    | Aborted(docs: seq<Doc>, at: nat, error: PyError)

  /** Process one document: compute its update and write it when non-empty.
      The boolean says whether a write was issued. */
  function Visit(d: Doc, norm: Record -> Result<Update, PyError>, failing: set<Key>)
    : Result<(Doc, bool), PyError>
  {
    match norm(d.fields)
    case Failure(e) => Failure(e)
    case Success(u) =>
      if u == map[] then Success((d, false))
      else if d.id in failing then Failure(WriteError(d.id))
      else Success((Doc(d.id, Apply(d.fields, u)), true))
  }

  /** The loop of one pass over a snapshot, in order, stopping at the first exception. */
  function Migrate(docs: seq<Doc>, norm: Record -> Result<Update, PyError>, failing: set<Key>)
    : PassResult
  {
    if docs == [] then Completed([], 0, 0)
    else
      match Visit(docs[0], norm, failing)
      case Failure(e) => Aborted(docs, 0, e)
      case Success(p) =>
        match Migrate(docs[1..], norm, failing)
        case Completed(ds, t, n) => Completed([p.0] + ds, t + 1, n + (if p.1 then 1 else 0))
        case Aborted(ds, k, e) => Aborted([p.0] + ds, k + 1, e)
  }

  /** Whether the normaliser asks for a write on this record. */
  predicate NeedsWrite(norm: Record -> Result<Update, PyError>, r: Record) {
    norm(r).Success? && norm(r).value != map[]
  }

  /** The number of documents of a snapshot the normaliser asks to write. */
  function CountNeedingWrite(docs: seq<Doc>, norm: Record -> Result<Update, PyError>): (n: nat)
    ensures n <= |docs|
  {
    if docs == [] then 0
    else (if NeedsWrite(norm, docs[0].fields) then 1 else 0) + CountNeedingWrite(docs[1..], norm)
  }

  /** What a completed pass did to document `i`. */
  predicate Migrated(before: Doc, after: Doc, norm: Record -> Result<Update, PyError>) {
    after.id == before.id && norm(before.fields).Success?
    && after.fields == Apply(before.fields, norm(before.fields).value)
  }

  /** A completed pass counted every document, wrote exactly the documents whose
      update is non-empty, and left every document with its update applied. */
  lemma {:induction false} MigrateCompleted(docs: seq<Doc>, norm: Record -> Result<Update, PyError>,
                                            failing: set<Key>)
    requires Migrate(docs, norm, failing).Completed?
    ensures var r := Migrate(docs, norm, failing);
            r.total == |docs| && r.updated == CountNeedingWrite(docs, norm) && r.updated <= r.total
            && |r.docs| == |docs|
            && forall i :: 0 <= i < |docs| ==> Migrated(docs[i], r.docs[i], norm)
  {
    if docs != [] {
      MigrateCompleted(docs[1..], norm, failing);
      var r := Migrate(docs, norm, failing);
      var rest := Migrate(docs[1..], norm, failing);
      forall i | 0 <= i < |docs|
        ensures Migrated(docs[i], r.docs[i], norm)
      {
        if i > 0 {
          assert r.docs[i] == rest.docs[i - 1];
          assert docs[i] == docs[1..][i - 1];
        }
      }
    }
  }

  /** An aborted pass stopped at document `at`: every earlier document has its
      update applied, `at` and every later one is untouched, and the error is the
      one raised while processing `at`. */
  lemma {:induction false} MigrateAborted(docs: seq<Doc>, norm: Record -> Result<Update, PyError>,
                                          failing: set<Key>)
    requires Migrate(docs, norm, failing).Aborted?
    ensures var r := Migrate(docs, norm, failing);
            r.at < |docs| && |r.docs| == |docs|
            && (forall i :: 0 <= i < r.at ==> Migrated(docs[i], r.docs[i], norm))
            && r.docs[r.at..] == docs[r.at..]
            && Visit(docs[r.at], norm, failing) == Failure(r.error)
  {
    var r := Migrate(docs, norm, failing);
    if r.at > 0 {
      var rest := Migrate(docs[1..], norm, failing);
      MigrateAborted(docs[1..], norm, failing);
      forall i | 0 <= i < r.at
        ensures Migrated(docs[i], r.docs[i], norm)
      {
        if i > 0 {
          assert r.docs[i] == rest.docs[i - 1];
          assert docs[i] == docs[1..][i - 1];
        }
      }
      assert r.docs[r.at..] == rest.docs[rest.at..];
      assert docs[r.at..] == docs[1..][rest.at..];
    }
  }

  /** Write avoidance: a pass over documents that are all canonical issues no
      write, reports 0 updated, and still counts every document. */
  lemma {:induction false} CanonicalCollectionUnchanged(docs: seq<Doc>,
                                                       norm: Record -> Result<Update, PyError>,
                                                       failing: set<Key>)
    requires forall i :: 0 <= i < |docs| ==> norm(docs[i].fields) == Success(map[])
    ensures Migrate(docs, norm, failing) == Completed(docs, |docs|, 0)
  {
    if docs != [] {
      CanonicalCollectionUnchanged(docs[1..], norm, failing);
      assert [docs[0]] + docs[1..] == docs;
    }
  }

  /** Re-running the activity pass on its own completed output writes nothing. */
  lemma ActivityRerunWritesNothing(docs: seq<Doc>, now: int, later: int, failing: set<Key>)
    requires Migrate(docs, ActivityNormaliser(now), failing).Completed?
    ensures var once := Migrate(docs, ActivityNormaliser(now), failing).docs;
            Migrate(once, ActivityNormaliser(later), failing) == Completed(once, |once|, 0)
  {
    var once := Migrate(docs, ActivityNormaliser(now), failing).docs;
    MigrateCompleted(docs, ActivityNormaliser(now), failing);
    forall i | 0 <= i < |once|
      ensures ActivityNormaliser(later)(once[i].fields) == Success(map[])
    {
      ActivityIdempotent(docs[i].fields, now, later);
    }
    CanonicalCollectionUnchanged(once, ActivityNormaliser(later), failing);
  }

  /** Re-running the dish pass on its own completed output writes exactly the
      dishes whose ratings are truthy. */
  lemma DishRerunWritesRatedDishes(docs: seq<Doc>, failing: set<Key>)
    requires Migrate(docs, DishUpdate, failing).Completed?
    ensures var once := Migrate(docs, DishUpdate, failing).docs;
            forall i :: 0 <= i < |once| ==>
              (NeedsWrite(DishUpdate, once[i].fields) <==> Truthy(StoredRatings(once[i].fields)))
  {
    var once := Migrate(docs, DishUpdate, failing).docs;
    MigrateCompleted(docs, DishUpdate, failing);
    forall i | 0 <= i < |once|
      ensures NeedsWrite(DishUpdate, once[i].fields) <==> Truthy(StoredRatings(once[i].fields))
    {
      DishSecondPass(docs[i].fields, DishUpdate(docs[i].fields).value);
    }
  }

  /** A pass with no failing writes over documents its normaliser leaves as they
      are completes and returns the snapshot itself. */
  lemma {:induction false} MigrateFixedPoint(docs: seq<Doc>, norm: Record -> Result<Update, PyError>)
    requires forall i :: 0 <= i < |docs| ==>
               norm(docs[i].fields).Success? && Apply(docs[i].fields, norm(docs[i].fields).value) == docs[i].fields
    ensures Migrate(docs, norm, {}).Completed? && Migrate(docs, norm, {}).docs == docs
  {
    if docs != [] {
      MigrateFixedPoint(docs[1..], norm);
      assert Visit(docs[0], norm, {}).value.0 == docs[0];
      assert [docs[0]] + docs[1..] == docs;
    }
  }

  /** Every dish of a completed dish pass is a fixed point of the dish update. */
  lemma DishPassIsFixedPoint(docs: seq<Doc>, failing: set<Key>)
    requires Migrate(docs, DishUpdate, failing).Completed?
    ensures var once := Migrate(docs, DishUpdate, failing).docs;
            Migrate(once, DishUpdate, {}).Completed? && Migrate(once, DishUpdate, {}).docs == once
  {
    var once := Migrate(docs, DishUpdate, failing).docs;
    MigrateCompleted(docs, DishUpdate, failing);
    forall i | 0 <= i < |once|
      ensures DishUpdate(once[i].fields).Success?
              && Apply(once[i].fields, DishUpdate(once[i].fields).value) == once[i].fields
    {
      DishSecondPass(docs[i].fields, DishUpdate(docs[i].fields).value);
    }
    MigrateFixedPoint(once, DishUpdate);
  }

  // ---------------------------------------------------------------------------
  // Index creation

  datatype Direction = Ascending | Descending
  datatype Collection = Dishes | UserActivity
  datatype IndexSpec = IndexSpec(coll: Collection, keys: seq<(string, Direction)>, unique: bool)

  /** The indexes `create_indexes` asks for on the dishes collection, in order. */
  const DishIndexes: seq<IndexSpec> := [
    IndexSpec(Dishes, [("average_rating", Descending)], false),
    IndexSpec(Dishes, [("like_count", Descending)], false),
    IndexSpec(Dishes, [("cook_count", Descending)], false),
    IndexSpec(Dishes, [("view_count", Descending)], false),
    IndexSpec(Dishes, [("created_at", Descending)], false),
    IndexSpec(Dishes, [("is_active", Ascending)], false),
    IndexSpec(Dishes, [("category", Ascending)], false),
    IndexSpec(Dishes, [("cuisine_type", Ascending)], false),
    IndexSpec(Dishes, [("tags", Ascending)], false),
    IndexSpec(Dishes, [("is_active", Ascending), ("average_rating", Descending), ("like_count", Descending)], false)
  ]

  const UniqueUserIndex: IndexSpec := IndexSpec(UserActivity, [("user_id", Ascending)], true)

  const LaterActivityIndexes: seq<IndexSpec> := [
    IndexSpec(UserActivity, [("updated_at", Descending)], false),
    IndexSpec(UserActivity, [("favorite_dishes", Ascending)], false)
  ]

  /** The value a unique index sees for `user_id`: a missing field indexes as null. */
  function UserIdOf(d: Doc): Value {
    Get(d.fields, "user_id", VNull)
  }

  predicate HasDuplicateUserId(activities: seq<Doc>) {
    exists i, j :: 0 <= i < j < |activities| && UserIdOf(activities[i]) == UserIdOf(activities[j])
  }

  /** The indexes that exist after `create_indexes`, or, when the unique index on
      `user_id` cannot be built, the error together with the indexes created before it. */
  function CreateIndexes(existing: set<IndexSpec>, activities: seq<Doc>)
    : (r: Result<set<IndexSpec>, (set<IndexSpec>, PyError)>)
    ensures r.Failure? <==> HasDuplicateUserId(activities)
    ensures r.Success? ==> forall ix :: ix in DishIndexes + [UniqueUserIndex] + LaterActivityIndexes ==> ix in r.value
    ensures r.Success? ==> existing <= r.value
    ensures r.Failure? ==>
              r.error.1 == DuplicateKey && r.error.0 == existing + set ix | ix in DishIndexes
  {
    var dishes := existing + set ix | ix in DishIndexes;
    if HasDuplicateUserId(activities) then Failure((dishes, DuplicateKey))
    else Success(dishes + {UniqueUserIndex} + set ix | ix in LaterActivityIndexes)
  }

  // ---------------------------------------------------------------------------
  // The driver (`main`)

  datatype Database = Database(dishes: seq<Doc>, activities: seq<Doc>, indexes: set<IndexSpec>)

  datatype Stage = DishStage | ActivityStage | IndexStage

  datatype RunResult =
    | RunSucceeded(db: Database, dishTotal: nat, dishUpdated: nat, activityTotal: nat, activityUpdated: nat)
    | RunFailed(db: Database, stage: Stage, error: PyError)

  /** The three steps in order; the first exception ends the run and is re-raised,
      leaving the database as far as it got. */
  function Run(db: Database, now: int, failing: set<Key>): (r: RunResult)
    ensures r.RunFailed? && r.stage == DishStage <==> Migrate(db.dishes, DishUpdate, failing).Aborted?
    ensures r.RunFailed? && r.stage == DishStage ==>
              var p := Migrate(db.dishes, DishUpdate, failing);
              r.error == p.error && r.db == db.(dishes := p.docs)
    ensures r.RunFailed? && r.stage == ActivityStage ==>
              var p := Migrate(db.activities, ActivityNormaliser(now), failing);
              Migrate(db.dishes, DishUpdate, failing).Completed? && p.Aborted?
              && r.error == p.error
              && r.db == Database(Migrate(db.dishes, DishUpdate, failing).docs, p.docs, db.indexes)
    ensures r.RunFailed? && r.stage == IndexStage ==>
              Migrate(db.dishes, DishUpdate, failing).Completed?
              && Migrate(db.activities, ActivityNormaliser(now), failing).Completed?
              && r.db.dishes == Migrate(db.dishes, DishUpdate, failing).docs
              && r.db.activities == Migrate(db.activities, ActivityNormaliser(now), failing).docs
              && HasDuplicateUserId(r.db.activities)
              && r.error == DuplicateKey && r.db.indexes == db.indexes + set ix | ix in DishIndexes
    ensures r.RunSucceeded? ==>
              Migrate(db.dishes, DishUpdate, failing).Completed?
              && Migrate(db.activities, ActivityNormaliser(now), failing).Completed?
              && r.db.dishes == Migrate(db.dishes, DishUpdate, failing).docs
              && r.db.activities == Migrate(db.activities, ActivityNormaliser(now), failing).docs
              && CreateIndexes(db.indexes, r.db.activities) == Success(r.db.indexes)
              && r.dishTotal == |db.dishes| && r.activityTotal == |db.activities|
              && r.dishUpdated == CountNeedingWrite(db.dishes, DishUpdate)
              && r.activityUpdated == CountNeedingWrite(db.activities, ActivityNormaliser(now))
  {
    match Migrate(db.dishes, DishUpdate, failing)
    case Aborted(ds, _, e) => RunFailed(db.(dishes := ds), DishStage, e)
    case Completed(ds, dt, du) =>
      MigrateCompleted(db.dishes, DishUpdate, failing);
      var db1 := db.(dishes := ds);
      match Migrate(db.activities, ActivityNormaliser(now), failing)
      case Aborted(as_, _, e) => RunFailed(db1.(activities := as_), ActivityStage, e)
      case Completed(as_, at, au) =>
        MigrateCompleted(db.activities, ActivityNormaliser(now), failing);
        var db2 := db1.(activities := as_);
        match CreateIndexes(db.indexes, as_)
        case Failure(p) => RunFailed(db2.(indexes := p.0), IndexStage, p.1)
        case Success(ix) => RunSucceeded(db2.(indexes := ix), dt, du, at, au)
  }

  /** The script is safe to run again: once a run without write failures has
      succeeded, a second run at any later time succeeds, writes no activity, and
      leaves the database exactly as the first run left it. */
  lemma RerunAfterSuccess(db: Database, now: int, later: int)
    requires Run(db, now, {}).RunSucceeded?
    ensures var r1 := Run(db, now, {});
            var r2 := Run(r1.db, later, {});
            r2.RunSucceeded? && r2.db == r1.db && r2.activityUpdated == 0
  {
    var r1 := Run(db, now, {});
    DishPassIsFixedPoint(db.dishes, {});
    ActivityRerunWritesNothing(db.activities, now, later, {});
    var ix := CreateIndexes(r1.db.indexes, r1.db.activities);
    assert ix.value == r1.db.indexes;
  }
}
