/**
 * Server-side translation helpers: the backend client used for translations,
 * the query that fetches a locale's records, and the diff that turns the
 * records into a create/update/remove changeset for a target key/value map.
 */
module Helpers {
  import opened Common

  /** Module settings the helpers read. */
  datatype Config = Config(url: string, accessToken: Option<string>, i18nPrefix: Option<string>)

  /** A REST client with a static token. */
  datatype RestClient = RestClient(url: string, token: string)

  /** A translation record as the backend returns it (fields `key`, `value`, `id`). */
  datatype Translation = Translation(key: string, value: string, id: string)

  /** One `[key, value]` pair of the target record, in `Object.entries` order. */
  type Entry = (string, string)

  /** A `create` item: `{key, value, language}`. */
  datatype NewTranslation = NewTranslation(key: string, value: string, language: string)

  /** An `update` item: `{id, value}`. */
  datatype TranslationUpdate = TranslationUpdate(id: string, value: string)

  /** The three buckets of a changeset. */
  datatype Payload = Payload(create: seq<NewTranslation>, update: seq<TranslationUpdate>, remove: seq<string>)

  /**
   * What a sync produced: `false` when there is nothing to do, otherwise the
   * three slots given to `Promise.all` (update, create, remove), each holding
   * the batch sent in that request, or `None` where the slot is `null`.
   */
  datatype SyncResult =
    | NothingToDo
    | Issued(update: Option<seq<TranslationUpdate>>, create: Option<seq<NewTranslation>>, remove: Option<seq<string>>)

  /** The client built by `useDirectus`: a missing or empty token becomes `''`. */
  function UseDirectus(config: Config): (c: RestClient)
    ensures c.url == config.url
    ensures c.token == "" <==> !Truthy(config.accessToken)
    ensures c.token != "" ==> config.accessToken == Some(c.token)
  {
    RestClient(config.url, if Truthy(config.accessToken) then config.accessToken.value else "")
  }

  // ---------------------------------------------------------------------------
  // Fetching

  /**
   * The operator the read's key condition uses, spelled as the source spells
   * it. The backend's own operator for a prefix test is `_starts_with`.
   */
  const KeyPrefixOperator: string := "_startsWith"

  /** One condition of a filter: an operator and its operand. */
  datatype Condition = Condition(operator: string, operand: string)

  /** The `filter` of the read: a condition on `language` and an optional one on `key`. */
  datatype Filter = Filter(language: Condition, key: Option<Condition>)

  /** The query sent by `fetchTranslations`. */
  datatype TranslationQuery = TranslationQuery(fields: seq<string>, limit: int, filter: Filter)

  /**
   * The query for one locale: fields `key`, `value` and `id`, no limit
   * (`limit: -1`), language equal to the locale and, only when a non-empty
   * prefix is configured, a key condition on that prefix.
   */
  function FetchQuery(locale: string, config: Config): (q: TranslationQuery)
    ensures q.fields == ["key", "value", "id"] && q.limit == -1
    ensures q.filter.language == Condition("_eq", locale)
    ensures q.filter.key.Some? <==> Truthy(config.i18nPrefix)
    ensures q.filter.key.Some? ==> q.filter.key.value == Condition(KeyPrefixOperator, config.i18nPrefix.value)
  {
    var key := if Truthy(config.i18nPrefix) then Some(Condition(KeyPrefixOperator, config.i18nPrefix.value)) else None;
    TranslationQuery(["key", "value", "id"], -1, Filter(Condition("_eq", locale), key))
  }

  // ---------------------------------------------------------------------------
  // Lookups

  /** The lookup of the first loop: the first remote record with the key, if any. */
  function Find(current: seq<Translation>, key: string): (r: Option<Translation>)
    ensures r.None? <==> forall t :: t in current ==> t.key != key
    ensures r.Some? ==> r.value.key == key && r.value in current
    ensures r.Some? ==> exists i :: 0 <= i < |current| && current[i] == r.value &&
                                    forall j :: 0 <= j < i ==> current[j].key != key
  {
    if current == [] then None
    else if current[0].key == key then Some(current[0])
    else
      var r := Find(current[1..], key);
      assert r.Some? ==> exists i :: 0 <= i < |current| && current[i] == r.value &&
                                     forall j :: 0 <= j < i ==> current[j].key != key by {
        if r.Some? {
          var i :| 0 <= i < |current[1..]| && current[1..][i] == r.value &&
                   forall j :: 0 <= j < i ==> current[1..][j].key != key;
          assert current[i + 1] == r.value;
          forall j | 0 <= j < i + 1 ensures current[j].key != key {
            if j > 0 { assert current[j] == current[1..][j - 1]; }
          }
        }
      }
      r
  }

  /** The lookup of the second loop: the target's value for the key, if it has one. */
  function Get(target: seq<Entry>, key: string): (r: Option<string>)
    ensures r.None? <==> forall e :: e in target ==> e.0 != key
    ensures r.Some? ==> (key, r.value) in target
  {
    if target == [] then None
    else if target[0].0 == key then Some(target[0].1)
    else Get(target[1..], key)
  }

  /** The keys of an object are distinct. */
  ghost predicate DistinctKeys(target: seq<Entry>)
  {
    forall i, j :: 0 <= i < j < |target| ==> target[i].0 != target[j].0
  }

  // ---------------------------------------------------------------------------
  // The diff, as functions of the inputs

  /** What the first loop pushes into `create`, entry by entry. */
  function CreateBucket(locale: string, target: seq<Entry>, current: seq<Translation>): seq<NewTranslation>
  {
    if target == [] then []
    else
      var e := target[|target| - 1];
      CreateBucket(locale, target[..|target| - 1], current)
        + (if Find(current, e.0).None? then [NewTranslation(e.0, e.1, locale)] else [])
  }

  /** What the first loop pushes into `update`, entry by entry. */
  function UpdateBucket(target: seq<Entry>, current: seq<Translation>): seq<TranslationUpdate>
  {
    if target == [] then []
    else
      var e := target[|target| - 1];
      var found := Find(current, e.0);
      UpdateBucket(target[..|target| - 1], current)
        + (if found.Some? && found.value.value != e.1 then [TranslationUpdate(found.value.id, e.1)] else [])
  }

  /** What the second loop pushes into `remove`, record by record. */
  function RemoveBucket(target: seq<Entry>, current: seq<Translation>): seq<string>
  {
    if current == [] then []
    else
      var t := current[|current| - 1];
      RemoveBucket(target, current[..|current| - 1])
        + (if !Truthy(Get(target, t.key)) then [t.id] else [])
  }

  // ---------------------------------------------------------------------------
  // The diff, as the source computes it

  /** The two loops of `syncTranslations` that fill `payload`. */
  method BuildPayload(locale: string, translations: seq<Entry>, current: seq<Translation>) returns (payload: Payload)
    ensures payload.create == CreateBucket(locale, translations, current)
    ensures payload.update == UpdateBucket(translations, current)
    ensures payload.remove == RemoveBucket(translations, current)
  {
    var create: seq<NewTranslation> := [];
    var update: seq<TranslationUpdate> := [];
    var remove: seq<string> := [];
    for i := 0 to |translations|
      invariant create == CreateBucket(locale, translations[..i], current)
      invariant update == UpdateBucket(translations[..i], current)
    {
      assert translations[..i + 1][..i] == translations[..i];
      var (key, value) := translations[i];
      var translation := Find(current, key);
      if translation.None? {
        create := create + [NewTranslation(key, value, locale)];
      } else if translation.value.value != value {
        update := update + [TranslationUpdate(translation.value.id, value)];
      }
    }
    assert translations[..|translations|] == translations;
    for i := 0 to |current|
      invariant remove == RemoveBucket(translations, current[..i])
    {
      assert current[..i + 1][..i] == current[..i];
      var translation := current[i];
      if !Truthy(Get(translations, translation.key)) {
        remove := remove + [translation.id];
      }
    }
    assert current[..|current|] == current;
    payload := Payload(create, update, remove);
  }

  /**
   * `syncTranslations` once the records are fetched (`fetched` is the outcome
   * of the read): `false` when every bucket is empty, otherwise one request per
   * non-empty bucket and none for an empty one. A failed read rejects.
   */
  method SyncTranslations(locale: string, translations: seq<Entry>, fetched: Outcome<seq<Translation>>)
    returns (r: Outcome<SyncResult>)
    ensures fetched.Err? ==> r == Err(fetched.error)
    ensures fetched.Ok? ==> r.Ok?
    ensures fetched.Ok? ==>
      var create := CreateBucket(locale, translations, fetched.value);
      var update := UpdateBucket(translations, fetched.value);
      var remove := RemoveBucket(translations, fetched.value);
      && (r.value.NothingToDo? <==> create == [] && update == [] && remove == [])
      && (r.value.Issued? ==>
            && r.value.update == (if update == [] then None else Some(update))
            && r.value.create == (if create == [] then None else Some(create))
            && r.value.remove == (if remove == [] then None else Some(remove)))
  {
    if fetched.Err? {
      return Err(fetched.error);
    }
    var payload := BuildPayload(locale, translations, fetched.value);
    if |payload.create| == 0 && |payload.update| == 0 && |payload.remove| == 0 {
      return Ok(NothingToDo);
    }
    r := Ok(Issued(
      if |payload.update| > 0 then Some(payload.update) else None,
      if |payload.create| > 0 then Some(payload.create) else None,
      if |payload.remove| > 0 then Some(payload.remove) else None));
  }

  // ---------------------------------------------------------------------------
  // Properties of the diff

  /** In an object, `translations[key]` is the value stored under that key. */
  lemma GetDistinct(target: seq<Entry>, i: nat)
    requires DistinctKeys(target) && i < |target|
    ensures Get(target, target[i].0) == Some(target[i].1)
  {
  }

  /**
   * Both buckets of the first loop follow the target's order: the entries of
   * an earlier part of the target come before those of a later part.
   */
  lemma {:induction false} BucketsFollowTargetOrder(locale: string, t1: seq<Entry>, t2: seq<Entry>, current: seq<Translation>)
    ensures CreateBucket(locale, t1 + t2, current) == CreateBucket(locale, t1, current) + CreateBucket(locale, t2, current)
    ensures UpdateBucket(t1 + t2, current) == UpdateBucket(t1, current) + UpdateBucket(t2, current)
  {
    if t2 == [] {
      assert t1 + t2 == t1;
    } else {
      var init := t2[..|t2| - 1];
      assert (t1 + t2)[..|t1 + t2| - 1] == t1 + init;
      assert (t1 + t2)[|t1 + t2| - 1] == t2[|t2| - 1];
      BucketsFollowTargetOrder(locale, t1, init, current);
    }
  }

  /**
   * One target entry: no remote record of its key gives exactly one create
   * item; a first matching record with another value gives exactly one update
   * item carrying that record's id; an equal value gives nothing. No entry
   * lands in both buckets.
   */
  lemma SingleEntryChange(locale: string, e: Entry, current: seq<Translation>)
    ensures Find(current, e.0).None? ==>
      CreateBucket(locale, [e], current) == [NewTranslation(e.0, e.1, locale)] && UpdateBucket([e], current) == []
    ensures Find(current, e.0).Some? && Find(current, e.0).value.value != e.1 ==>
      CreateBucket(locale, [e], current) == [] && UpdateBucket([e], current) == [TranslationUpdate(Find(current, e.0).value.id, e.1)]
    ensures Find(current, e.0).Some? && Find(current, e.0).value.value == e.1 ==>
      CreateBucket(locale, [e], current) == [] && UpdateBucket([e], current) == []
  {
  }

  /** Each target entry contributes at most one item to create and update together. */
  lemma {:induction false} BucketSizes(locale: string, target: seq<Entry>, current: seq<Translation>)
    ensures |CreateBucket(locale, target, current)| + |UpdateBucket(target, current)| <= |target|
    ensures |RemoveBucket(target, current)| <= |current|
    decreases |target| + |current|
  {
    if target != [] {
      BucketSizes(locale, target[..|target| - 1], current);
    }
    if current != [] {
      BucketSizes(locale, target, current[..|current| - 1]);
    }
  }

  /** A create item exists exactly for a target entry whose key has no remote record. */
  lemma {:induction false} CreateMembership(locale: string, target: seq<Entry>, current: seq<Translation>, c: NewTranslation)
    ensures c in CreateBucket(locale, target, current) <==>
      c.language == locale && (c.key, c.value) in target && Find(current, c.key).None?
  {
    if target != [] {
      var init := target[..|target| - 1];
      CreateMembership(locale, init, current, c);
      assert target == init + [target[|target| - 1]];
    }
  }

  /** With distinct target keys, a key with no remote record yields exactly one create item. */
  lemma {:induction false} CreateExactlyOnce(locale: string, target: seq<Entry>, current: seq<Translation>, i: nat)
    requires DistinctKeys(target) && i < |target|
    requires Find(current, target[i].0).None?
    ensures multiset(CreateBucket(locale, target, current))[NewTranslation(target[i].0, target[i].1, locale)] == 1
  {
    var c := NewTranslation(target[i].0, target[i].1, locale);
    var init := target[..|target| - 1];
    if i == |target| - 1 {
      CreateMembership(locale, init, current, c);
      forall j | 0 <= j < |init| ensures init[j] != (c.key, c.value) {
        assert init[j] == target[j];
      }
      assert c !in CreateBucket(locale, init, current);
    } else {
      assert DistinctKeys(init);
      CreateExactlyOnce(locale, init, current, i);
      assert target[|target| - 1].0 != target[i].0;
    }
  }

  /**
   * An update item exists exactly for a target entry whose first matching
   * remote record holds another value; it carries that record's id and the
   * target's value.
   */
  lemma {:induction false} UpdateMembership(target: seq<Entry>, current: seq<Translation>, u: TranslationUpdate)
    ensures u in UpdateBucket(target, current) <==>
      exists e :: e in target && Find(current, e.0).Some? && Find(current, e.0).value.value != e.1 &&
                  u == TranslationUpdate(Find(current, e.0).value.id, e.1)
  {
    if target != [] {
      var init := target[..|target| - 1];
      var last := target[|target| - 1];
      UpdateMembership(init, current, u);
      assert target == init + [last];
      if u in UpdateBucket(target, current) && u !in UpdateBucket(init, current) {
        assert last in target;
      }
    }
  }

  /** A record's id is removed exactly when its key is missing from the target or maps to a falsy value. */
  lemma {:induction false} RemoveMembership(target: seq<Entry>, current: seq<Translation>, id: string)
    ensures id in RemoveBucket(target, current) <==>
      exists t :: t in current && t.id == id && !Truthy(Get(target, t.key))
  {
    if current != [] {
      var init := current[..|current| - 1];
      var last := current[|current| - 1];
      RemoveMembership(target, init, id);
      assert current == init + [last];
      if id in RemoveBucket(target, current) && id !in RemoveBucket(target, init) {
        assert last in current;
      }
    }
  }

  /** The remove bucket follows the order of the remote records. */
  lemma {:induction false} RemoveFollowsRecordOrder(target: seq<Entry>, c1: seq<Translation>, c2: seq<Translation>)
    ensures RemoveBucket(target, c1 + c2) == RemoveBucket(target, c1) + RemoveBucket(target, c2)
  {
    if c2 == [] {
      assert c1 + c2 == c1;
    } else {
      var init := c2[..|c2| - 1];
      assert (c1 + c2)[..|c1 + c2| - 1] == c1 + init;
      assert (c1 + c2)[|c1 + c2| - 1] == c2[|c2| - 1];
      RemoveFollowsRecordOrder(target, c1, init);
    }
  }

  /**
   * Removal tests truthiness: a key mapped to `""` whose first remote record
   * holds a non-empty value is both updated to `""` and removed.
   */
  lemma EmptyValueUpdatedAndRemoved(target: seq<Entry>, current: seq<Translation>, i: nat)
    requires DistinctKeys(target) && i < |target| && target[i].1 == ""
    requires Find(current, target[i].0).Some? && Find(current, target[i].0).value.value != ""
    ensures TranslationUpdate(Find(current, target[i].0).value.id, "") in UpdateBucket(target, current)
    ensures Find(current, target[i].0).value.id in RemoveBucket(target, current)
  {
    var e := target[i];
    var t := Find(current, e.0).value;
    assert e in target;
    UpdateMembership(target, current, TranslationUpdate(t.id, ""));
    GetDistinct(target, i);
    RemoveMembership(target, current, t.id);
  }

  /** No create item when every target key has a remote record. */
  lemma {:induction false} CreateEmpty(locale: string, target: seq<Entry>, current: seq<Translation>)
    requires forall e :: e in target ==> Find(current, e.0).Some?
    ensures CreateBucket(locale, target, current) == []
  {
    if target != [] {
      assert target[|target| - 1] in target;
      CreateEmpty(locale, target[..|target| - 1], current);
    }
  }

  /** No update item when every first matching record already holds the target value. */
  lemma {:induction false} UpdateEmpty(target: seq<Entry>, current: seq<Translation>)
    requires forall e :: e in target && Find(current, e.0).Some? ==> Find(current, e.0).value.value == e.1
    ensures UpdateBucket(target, current) == []
  {
    if target != [] {
      assert target[|target| - 1] in target;
      UpdateEmpty(target[..|target| - 1], current);
    }
  }

  /** No removal when every record's key maps to a truthy target value. */
  lemma {:induction false} RemoveEmpty(target: seq<Entry>, current: seq<Translation>)
    requires forall t :: t in current ==> Truthy(Get(target, t.key))
    ensures RemoveBucket(target, current) == []
  {
    if current != [] {
      assert current[|current| - 1] in current;
      RemoveEmpty(target, current[..|current| - 1]);
    }
  }

  /**
   * Idempotence: when every remote record agrees with the target, every
   * target key has a remote record and no target value is empty, all three
   * buckets are empty, so a sync reports `false`.
   */
  lemma SyncIdempotent(locale: string, target: seq<Entry>, current: seq<Translation>)
    requires DistinctKeys(target)
    requires forall t :: t in current ==> Get(target, t.key) == Some(t.value)
    requires forall i :: 0 <= i < |target| ==> (exists t :: t in current && t.key == target[i].0)
    requires forall i :: 0 <= i < |target| ==> target[i].1 != ""
    ensures CreateBucket(locale, target, current) == []
    ensures UpdateBucket(target, current) == []
    ensures RemoveBucket(target, current) == []
  {
    forall e | e in target
      ensures Find(current, e.0).Some?
      ensures Find(current, e.0).value.value == e.1
    {
      var i :| 0 <= i < |target| && target[i] == e;
      var t :| t in current && t.key == target[i].0;
      var found := Find(current, e.0).value;
      GetDistinct(target, i);
    }
    CreateEmpty(locale, target, current);
    UpdateEmpty(target, current);
    forall t | t in current ensures Truthy(Get(target, t.key)) {
      var v := Get(target, t.key).value;
      var i :| 0 <= i < |target| && target[i] == (t.key, v);
    }
    RemoveEmpty(target, current);
  }
}
