/**
 The bounded result cache of a rule, with a time to live per entry, and the keys it uses.
 */
module ResultCache {
  import opened Common
  import opened Text
  import opened Results

  const MAX_ENTRIES := 1024

  datatype Entry = Entry(result: RuleResult, expiresAt: int, generation: int)

  // ----- keys -----

  /**
   Parameter values.  For floating-point and compound values, `text` is what the stream writes,
   six digits or a type name and hash, which need not determine the `content`.
   */
  datatype Value = Nil | IntValue(i: int) | BoolValue(b: bool) | TextValue(s: string) | Printed(content: int, text: string)

  datatype Parameter = Parameter(name: string, value: Value)

  function ValueText(v: Value): string
  {
    match v
    case Nil => "nil"
    case IntValue(i) => Decimal(i)
    case BoolValue(b) => if b then "1" else "0"
    case TextValue(s) => s
    case Printed(_, text) => text
  }

  function ParametersText(params: seq<Parameter>): string
  {
    if params == [] then ""
    else params[0].name + "=" + ValueText(params[0].value) + ";" + ParametersText(params[1..])
  }

  function CacheKey(id: int, params: seq<Parameter>): string
  {
    Decimal(id) + "|" + ParametersText(params)
  }

  method BuildCacheKey(id: int, params: seq<Parameter>) returns (key: string)
    ensures key == CacheKey(id, params)
  {
    key := Decimal(id) + "|";
    for i := 0 to |params|
      invariant key + ParametersText(params[i..]) == CacheKey(id, params)
    {
      assert params[i..][0] == params[i] && params[i..][1..] == params[i + 1..];
      key := key + (params[i].name + "=" + ValueText(params[i].value) + ";");
    }
    assert params[|params|..] == [];
  }

  /** Names without '=' and texts without ';'. */
  ghost predicate Separable(params: seq<Parameter>)
  {
    forall i :: 0 <= i < |params| ==> '=' !in params[i].name && ';' !in ValueText(params[i].value)
  }

  ghost predicate SameType(v: Value, w: Value)
  {
    v.Nil? == w.Nil? && v.IntValue? == w.IntValue? && v.BoolValue? == w.BoolValue? && v.TextValue? == w.TextValue? && v.Printed? == w.Printed?
  }

  lemma {:induction false} CutAtFirst(a: string, x: string, b: string, y: string, sep: char)
    requires sep !in a && sep !in b && a + [sep] + x == b + [sep] + y
    ensures a == b && x == y
  {
    var s, t := a + [sep] + x, b + [sep] + y;
    if a == [] || b == [] {
      assert s[0] == t[0];
      assert s[1..] == x && t[1..] == y;
    } else {
      assert s[0] == a[0] && t[0] == b[0];
      assert s[1..] == a[1..] + [sep] + x && t[1..] == b[1..] + [sep] + y;
      CutAtFirst(a[1..], x, b[1..], y, sep);
      assert a == [a[0]] + a[1..] && b == [b[0]] + b[1..];
    }
  }

  lemma ValueTextInjective(v: Value, w: Value)
    requires SameType(v, w) && !v.Printed? && ValueText(v) == ValueText(w)
    ensures v == w
  {
    match v
    case IntValue(i) => DecimalInjective(i, w.i);
    case BoolValue(b) => assert "1"[0] != "0"[0];
    case _ =>
  }

  lemma FirstParameter(p: seq<Parameter>)
    requires p != []
    ensures ParametersText(p) == p[0].name + ['='] + (ValueText(p[0].value) + [';'] + ParametersText(p[1..]))
  {
  }

  lemma {:induction false} ParametersTextInjective(p: seq<Parameter>, q: seq<Parameter>)
    requires Separable(p) && Separable(q) && ParametersText(p) == ParametersText(q)
    ensures SameTexts(p, q)
  {
    if p == [] || q == [] {
      assert |ParametersText(p)| == |ParametersText(q)|;
    } else {
      var x, y := ParametersText(p[1..]), ParametersText(q[1..]);
      var v, w := ValueText(p[0].value), ValueText(q[0].value);
      FirstParameter(p);
      FirstParameter(q);
      CutAtFirst(p[0].name, v + [';'] + x, q[0].name, w + [';'] + y, '=');
      CutAtFirst(v, x, w, y, ';');
      ParametersTextInjective(p[1..], q[1..]);
    }
  }

  ghost predicate SameTexts(p: seq<Parameter>, q: seq<Parameter>)
  {
    |p| == |q| && forall i :: 0 <= i < |p| ==> p[i].name == q[i].name && ValueText(p[i].value) == ValueText(q[i].value)
  }

  lemma {:induction false} SameTextsSameText(p: seq<Parameter>, q: seq<Parameter>)
    requires SameTexts(p, q)
    ensures ParametersText(p) == ParametersText(q)
  {
    if p != [] {
      SameTextsSameText(p[1..], q[1..]);
    }
  }

  lemma SameKeyParts(id: int, p: seq<Parameter>, other: int, q: seq<Parameter>)
    requires CacheKey(id, p) == CacheKey(other, q)
    ensures id == other && ParametersText(p) == ParametersText(q)
  {
    CutAtFirst(Decimal(id), ParametersText(p), Decimal(other), ParametersText(q), '|');
    DecimalInjective(id, other);
  }

  /** For separable lists, whatever the types: one key exactly if the rule is the same and the names and the texts of the values agree, position by position. */
  lemma SameKeyIffSameTexts(id: int, p: seq<Parameter>, other: int, q: seq<Parameter>)
    requires Separable(p) && Separable(q)
    ensures CacheKey(id, p) == CacheKey(other, q) <==> id == other && SameTexts(p, q)
  {
    if CacheKey(id, p) == CacheKey(other, q) {
      SameKeyParts(id, p, other, q);
      ParametersTextInjective(p, q);
    }
    if SameTexts(p, q) {
      SameTextsSameText(p, q);
    }
  }

  /** Equal keys mean equal parameter lists, for integers, booleans and texts of the same types, separable. */
  lemma CacheKeyInjective(id: int, p: seq<Parameter>, q: seq<Parameter>)
    requires Separable(p) && Separable(q)
    requires forall i :: 0 <= i < |p| && i < |q| ==> SameType(p[i].value, q[i].value) && !p[i].value.Printed?
    requires CacheKey(id, p) == CacheKey(id, q)
    ensures p == q
  {
    SameKeyIffSameTexts(id, p, id, q);
    forall i | 0 <= i < |p|
      ensures p[i] == q[i]
    {
      ValueTextInjective(p[i].value, q[i].value);
    }
  }

  /** No restriction can be dropped: values of different types share a key, and so do texts holding a separator and values printed alike. */
  lemma CacheKeyCollides(id: int)
    ensures CacheKey(id, [Parameter("x", BoolValue(true))]) == CacheKey(id, [Parameter("x", TextValue("1"))])
    ensures CacheKey(id, [Parameter("x", BoolValue(false))]) == CacheKey(id, [Parameter("x", TextValue("0"))])
    ensures CacheKey(id, [Parameter("x", Nil)]) == CacheKey(id, [Parameter("x", TextValue("nil"))])
    ensures CacheKey(id, [Parameter("x", Printed(1, "0.1"))]) == CacheKey(id, [Parameter("x", Printed(2, "0.1"))])
    ensures CacheKey(id, [Parameter("x", TextValue("1;y=2"))]) ==
            CacheKey(id, [Parameter("x", TextValue("1")), Parameter("y", TextValue("2"))])
  {
    var a, b := Parameter("x", TextValue("1")), Parameter("y", TextValue("2"));
    assert [a, b][1..] == [b];
    assert ParametersText([b]) == "y=2;";
    assert ParametersText([a, b]) == "x=1;" + "y=2;";
    assert ParametersText([Parameter("x", TextValue("1;y=2"))]) == "x=1;y=2;";
  }

  // ----- entries -----

  /** What happened to the cache, oldest first. */
  datatype Op = Stored(key: string, entry: Entry) | Invalidated

  /** The last entry stored under a key since the last invalidation. */
  ghost function Latest(log: seq<Op>, key: string): Option<Entry>
  {
    if log == [] then None
    else
      match log[|log| - 1]
      case Invalidated => None
      case Stored(k, e) => if k == key then Some(e) else Latest(log[..|log| - 1], key)
  }

  ghost predicate Expired(e: Entry, now: int)
  {
    e.expiresAt <= now
  }

  /** The entries a store keeps when it has to make room. */
  ghost predicate MadeRoom(before: map<string, Entry>, after: map<string, Entry>, now: int)
  {
    if exists k :: k in before && before[k].expiresAt <= now then
      forall k :: (k in after <==> k in before && now < before[k].expiresAt) && (k in after ==> after[k] == before[k])
    else
      exists victim :: victim in before && after == before - {victim} &&
        forall k :: k in before ==> before[victim].expiresAt <= before[k].expiresAt
  }

  lemma SmallerMap(before: map<string, Entry>, after: map<string, Entry>, lost: string)
    requires after.Keys <= before.Keys && lost in before && lost !in after
    ensures |after| < |before|
  {
    assert after.Keys <= before.Keys - {lost};
    SubsetSize(after.Keys, before.Keys - {lost});
  }

  method DropExpired(cache: map<string, Entry>, now: int) returns (rest: map<string, Entry>)
    ensures forall k :: (k in rest <==> k in cache && !Expired(cache[k], now)) && (k in rest ==> rest[k] == cache[k])
  {
    rest := cache;
    var todo := cache.Keys;
    while todo != {}
      invariant todo <= cache.Keys
      invariant forall k :: k in rest <==> k in cache && (k in todo || !Expired(cache[k], now))
      invariant forall k :: k in rest ==> rest[k] == cache[k]
      decreases todo
    {
      ghost var _ := Member(todo);
      var k :| k in todo;
      todo := todo - {k};
      if cache[k].expiresAt <= now {
        rest := rest - {k};
      }
    }
  }

  /** The scan for the entry closest to expiry, in whatever order the map is traversed. */
  method Oldest(cache: map<string, Entry>) returns (victim: string)
    requires cache != map[]
    ensures victim in cache && forall k :: k in cache ==> cache[victim].expiresAt <= cache[k].expiresAt
  {
    ghost var _ := Member(cache.Keys);
    victim :| victim in cache.Keys;
    var todo := cache.Keys;
    while todo != {}
      invariant todo <= cache.Keys && victim in cache
      invariant forall k :: k in cache && k !in todo ==> cache[victim].expiresAt <= cache[k].expiresAt
      decreases todo
    {
      ghost var _ := Member(todo);
      var k :| k in todo;
      todo := todo - {k};
      if cache[k].expiresAt < cache[victim].expiresAt {
        victim := k;
      }
    }
  }

  /** Making room in a full cache: expired entries go first, otherwise one with the least time left. */
  method MakeRoom(cache: map<string, Entry>, now: int) returns (rest: map<string, Entry>)
    requires |cache| == MAX_ENTRIES
    ensures MadeRoom(cache, rest, now) && |rest| < MAX_ENTRIES
    ensures forall k :: k in rest ==> k in cache && rest[k] == cache[k]
  {
    rest := DropExpired(cache, now);
    if |rest| >= MAX_ENTRIES {
      if k :| k in cache && Expired(cache[k], now) {
        SmallerMap(cache, rest, k);
      }
      assert rest == cache;
      var victim := Oldest(rest);
      rest := rest - {victim};
      assert rest == cache - {victim};
      SmallerMap(cache, rest, victim);
    } else {
      NotFullMeansExpired(cache, rest, now);
    }
  }

  predicate Full(cache: map<string, Entry>, key: string)
  {
    |cache| >= MAX_ENTRIES && key !in cache
  }

  /** What stays in the cache when `key` is about to be stored. */
  method RoomFor(cache: map<string, Entry>, key: string, now: int) returns (kept: map<string, Entry>)
    requires |cache| <= MAX_ENTRIES
    ensures |kept| <= MAX_ENTRIES && (key in kept || |kept| < MAX_ENTRIES)
    ensures forall k :: k in kept ==> k in cache && kept[k] == cache[k]
    ensures !Full(cache, key) ==> kept == cache
    ensures Full(cache, key) ==> MadeRoom(cache, kept, now)
  {
    kept := cache;
    if Full(cache, key) {
      kept := MakeRoom(cache, now);
    }
  }

  lemma NotFullMeansExpired(cache: map<string, Entry>, rest: map<string, Entry>, now: int)
    requires |rest| < |cache|
    requires forall k :: (k in rest <==> k in cache && !Expired(cache[k], now)) && (k in rest ==> rest[k] == cache[k])
    ensures exists k :: k in cache && Expired(cache[k], now)
  {
    if cache.Keys - rest.Keys == {} {
      forall k | k in cache.Keys
        ensures k in rest.Keys
      {
        assert k !in cache.Keys - rest.Keys;
      }
      SubsetSize(cache.Keys, rest.Keys);
      assert false;
    }
    var lost := Member(cache.Keys - rest.Keys);
    assert lost in cache && Expired(cache[lost], now);
  }

  /** Caching is on for a positive duration only. */
  predicate Caching(duration: Option<int>)
  {
    duration.Some? && duration.value > 0
  }

  class Cache {
    var cache: map<string, Entry>
    var generation: int
    ghost var log: seq<Op>

    /** Bounded, of one generation, and every entry is the latest one stored under its key. */
    ghost predicate Valid()
      reads this
    {
      && |cache| <= 1024
      && forall k :: k in cache ==> Latest(log, k) == Some(cache[k]) && cache[k].generation == generation
    }

    constructor ()
      ensures Valid() && cache == map[] && log == []
    {
      cache, generation, log := map[], 0, [];
    }

    /** A hit is the result stored last under the key since the last invalidation, and it has not expired. */
    method Find(key: string, now: int, duration: Option<int>) returns (r: Option<RuleResult>)
      requires Valid()
      modifies this`cache
      ensures Valid()
      ensures r.Some? <==> duration.Some? && duration.value > 0 && key in old(cache) && now < old(cache)[key].expiresAt
      ensures r.Some? ==> Latest(log, key).Some? && r.value == Latest(log, key).value.result && now < Latest(log, key).value.expiresAt
      ensures cache == if duration.Some? && duration.value > 0 && r.None? then old(cache) - {key} else old(cache)
    {
      if !Caching(duration) {
        return None;
      }
      if key in cache {
        if now < cache[key].expiresAt && cache[key].generation == generation {
          return Some(cache[key].result);
        }
        SubsetSize((cache - {key}).Keys, cache.Keys);
        cache := cache - {key};
      } else {
        assert cache - {key} == cache;
      }
      return None;
    }

    /** Only a new key in a full cache displaces anything, and then as MadeRoom says. */
    method Store(key: string, result: RuleResult, now: int, duration: Option<int>)
      requires Valid()
      modifies this`cache, this`log
      ensures Valid()
      ensures duration.None? || duration.value <= 0 ==> cache == old(cache) && log == old(log)
      ensures duration.Some? && duration.value > 0 ==>
        var entry := Entry(result, now + duration.value, generation);
        && log == old(log) + [Stored(key, entry)]
        && (key in old(cache) || |old(cache)| < 1024 ==> cache == old(cache)[key := entry])
        && (key !in old(cache) && |old(cache)| == 1024 ==> exists kept :: MadeRoom(old(cache), kept, now) && cache == kept[key := entry])
    {
      if !Caching(duration) {
        return;
      }
      var entry := Entry(result, now + duration.value, generation);
      var kept := RoomFor(cache, key, now);
      BoundAfterStore(kept, key, entry);
      LatestAfterStore(log, key, entry);
      cache := kept[key := entry];
      log := log + [Stored(key, entry)];
    }

    method Invalidate() returns (next: int)
      requires Valid()
      modifies this
      ensures Valid() && cache == map[] && log == old(log) + [Invalidated]
      ensures next == generation == old(generation) + 1
      ensures forall key :: Latest(log, key) == None
    {
      generation := generation + 1;
      cache := map[];
      log := log + [Invalidated];
      next := generation;
    }
  }

  lemma LatestAfterStore(log: seq<Op>, key: string, entry: Entry)
    ensures forall k :: Latest(log + [Stored(key, entry)], k) == if k == key then Some(entry) else Latest(log, k)
  {
    assert (log + [Stored(key, entry)])[..|log|] == log;
  }

  lemma BoundAfterStore(kept: map<string, Entry>, key: string, entry: Entry)
    requires |kept| <= MAX_ENTRIES && (key in kept || |kept| < MAX_ENTRIES)
    ensures |kept[key := entry]| <= MAX_ENTRIES
  {
    assert kept[key := entry].Keys == kept.Keys + {key};
  }
}
