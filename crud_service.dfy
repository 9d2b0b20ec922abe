/**
 * The cache logic of the generic CRUD service: the query-key factory, the list URL,
 * the response handling of the list and detail reads, the optimistic list updaters of
 * create and delete, and the snapshot / rollback / detail write they perform on the
 * query cache. HTTP and JSON are left out: a response is its `ok` flag and its body.
 */
module CrudService {
  import opened Wrappers
  import JsText

  // ---------------------------------------------------------------------------
  // Entities and list data
  // ---------------------------------------------------------------------------

  /** An entity: its numeric `id` and the rest of its fields (`Omit<T, "id">`). */
  datatype Entity<F> = Entity(id: int, fields: F)

  /**
   * What a list query caches: the bare array, or the envelope `{ list, ...meta }`
   * produced by `parseListResponse`, whose fields other than `list` are `meta`.
   */
  datatype ListData<F, M> = Plain(items: seq<Entity<F>>) | Envelope(list: seq<Entity<F>>, meta: M)

  function Items<F, M>(d: ListData<F, M>): seq<Entity<F>> {
    match d
    case Plain(s) => s
    case Envelope(s, _) => s
  }

  // ---------------------------------------------------------------------------
  // List parameters and query keys
  // ---------------------------------------------------------------------------

  /** A primitive value a list parameter can hold. */
  datatype Primitive = PString(s: string) | PNumber(n: int) | PBool(b: bool)

  /** The value of one entry of the list-parameter object. */
  datatype ParamValue = Null | Undefined | Value(v: Primitive)

  /**
   * The `params` argument of `lists` and `useGetList`: absent (`null` or `undefined`),
   * a primitive, or an object given by its `Object.entries` in order.
   */
  datatype ParamArg = Missing | Scalar(p: Primitive) | Object(entries: seq<(string, ParamValue)>)

  /** One component of a query key. */
  datatype Token = Name(name: string) | Id(id: int) | Params(params: ParamArg)

  type Key = seq<Token>

  /** `queryKeys.all`. */
  function All(entityKey: string): (k: Key)
    ensures |k| == 1 && k[0] == Name(entityKey)
  {
    [Name(entityKey)]
  }

  /** `queryKeys.lists(params)`: the params token is present exactly when params are not null/undefined. */
  function Lists(entityKey: string, params: ParamArg): (k: Key)
    ensures |k| == if params.Missing? then 2 else 3
    ensures All(entityKey) <= k && k[1] == Name("list")
    ensures !params.Missing? ==> k[2] == Params(params)
  {
    if !params.Missing? then All(entityKey) + [Name("list"), Params(params)]
    else All(entityKey) + [Name("list")]
  }

  /** `queryKeys.details()`. */
  function Details(entityKey: string): (k: Key)
    ensures All(entityKey) <= k && |k| == 2 && k[1] == Name("detail")
  {
    All(entityKey) + [Name("detail")]
  }

  /** `queryKeys.detail(id)`. */
  function Detail(entityKey: string, id: int): (k: Key)
    ensures Details(entityKey) <= k && |k| == 3 && k[2] == Id(id)
  {
    Details(entityKey) + [Id(id)]
  }

  /**
   * The keys the cache library treats as matching the filter `{ queryKey: lists() }`:
   * those that have `lists()` as a prefix. This is an assumption about the library's
   * partial key matching, not something proved about it.
   */
  predicate MatchesLists(entityKey: string, k: Key) {
    Lists(entityKey, Missing) <= k
  }

  /** Prefix consistency: `all` is a prefix of every derived key, `lists()` of `lists(p)`, `details()` of `detail(id)`. */
  lemma KeyHierarchy(entityKey: string, params: ParamArg, id: int)
    ensures All(entityKey) <= Lists(entityKey, params) && All(entityKey) <= Details(entityKey)
    ensures All(entityKey) <= Detail(entityKey, id)
    ensures Lists(entityKey, Missing) <= Lists(entityKey, params)
    ensures Detail(entityKey, id) == Details(entityKey) + [Id(id)]
    ensures MatchesLists(entityKey, Lists(entityKey, params))
  {
  }

  /** List keys differ exactly when their params differ; detail keys differ exactly when their ids differ. */
  lemma KeysIdentifyArguments(entityKey: string, p: ParamArg, q: ParamArg, a: int, b: int)
    ensures Lists(entityKey, p) == Lists(entityKey, q) <==> p == q
    ensures Detail(entityKey, a) == Detail(entityKey, b) <==> a == b
  {
    if Lists(entityKey, p) == Lists(entityKey, q) {
      assert |Lists(entityKey, p)| == |Lists(entityKey, q)|;
      if !p.Missing? {
        assert Lists(entityKey, p)[2] == Lists(entityKey, q)[2];
      }
    }
    if Detail(entityKey, a) == Detail(entityKey, b) {
      assert Detail(entityKey, a)[2] == Detail(entityKey, b)[2];
    }
  }

  /** The list filter reaches no detail key, and no list key of another entity. */
  lemma ListFilterScope(entityKey: string, other: string, params: ParamArg, id: int)
    ensures !MatchesLists(entityKey, Details(entityKey))
    ensures !MatchesLists(entityKey, Detail(entityKey, id))
    ensures other != entityKey ==> !MatchesLists(entityKey, Lists(other, params))
  {
    assert Lists(entityKey, Missing)[1] != Details(entityKey)[1];
    assert Lists(entityKey, Missing)[1] != Detail(entityKey, id)[1];
    if other != entityKey {
      assert Lists(entityKey, Missing)[0] != Lists(other, params)[0];
    }
  }

  // ---------------------------------------------------------------------------
  // The list URL (buildListUrl)
  // ---------------------------------------------------------------------------

  /** The entry survives the filter `v != null && v !== ""`: `0` and `false` are kept. */
  predicate Kept(v: ParamValue) {
    v.Value? && v.v != PString("")
  }

  /** `String(v)` for a primitive. */
  function ToText(p: Primitive): (t: string)
    ensures p.PString? ==> t == p.s
    ensures p.PNumber? ==> JsText.ParseInteger(t) == Some(p.n)
    ensures p.PBool? ==> (t == "true" <==> p.b) && (t == "false" <==> !p.b)
  {
    match p
    case PString(s) => s
    case PNumber(n) => JsText.IntToTextRoundTrip(n); JsText.IntToText(n)
    case PBool(b) => if b then "true" else "false"
  }

  /** The query pairs the entries should produce: each kept entry as `(key, String(v))`, in entry order. */
  function KeptPairs(entries: seq<(string, ParamValue)>): (q: seq<(string, string)>)
    ensures |q| <= |entries|
    decreases |entries|
  {
    if entries == [] then []
    else
      var last := entries[|entries| - 1];
      KeptPairs(entries[..|entries| - 1]) + (if Kept(last.1) then [(last.0, ToText(last.1.v))] else [])
  }

  /** The first components of a list of pairs: the names of a query, the keys of a snapshot. */
  function KeysOf<K, V>(q: seq<(K, V)>): set<K> {
    set i | 0 <= i < |q| :: q[i].0
  }

  lemma KeysOfCons<K, V>(x: (K, V), q: seq<(K, V)>)
    ensures KeysOf([x] + q) == {x.0} + KeysOf(q)
  {
    var r := [x] + q;
    forall n | n in KeysOf(r)
      ensures n in {x.0} + KeysOf(q)
    {
      var i :| 0 <= i < |r| && r[i].0 == n;
      if i > 0 {
        assert q[i - 1] == r[i];
      }
    }
    forall n | n in KeysOf(q)
      ensures n in KeysOf(r)
    {
      var i :| 0 <= i < |q| && q[i].0 == n;
      assert r[i + 1] == q[i];
    }
    assert r[0] == x;
  }

  lemma KeysOfSnoc<K, V>(q: seq<(K, V)>, x: (K, V))
    ensures KeysOf(q + [x]) == KeysOf(q) + {x.0}
  {
    var r := q + [x];
    forall n | n in KeysOf(r)
      ensures n in KeysOf(q) + {x.0}
    {
      var i :| 0 <= i < |r| && r[i].0 == n;
      if i < |q| {
        assert q[i] == r[i];
      }
    }
    forall n | n in KeysOf(q)
      ensures n in KeysOf(r)
    {
      var i :| 0 <= i < |q| && q[i].0 == n;
      assert r[i] == q[i];
    }
    assert r[|q|] == x;
  }

  /** No two pairs share a first component, as with the keys of `Object.entries`. */
  predicate DistinctKeys<K(==), V>(q: seq<(K, V)>) {
    forall i, j :: 0 <= i < j < |q| ==> q[i].0 != q[j].0
  }

  /** The pairs of `q` whose name is not `name`. */
  function RemoveName(q: seq<(string, string)>, name: string): (r: seq<(string, string)>)
    ensures KeysOf(r) == KeysOf(q) - {name}
  {
    if q == [] then []
    else
      var rest := RemoveName(q[1..], name);
      assert q == [q[0]] + q[1..];
      KeysOfCons(q[0], q[1..]);
      if q[0].0 == name then rest
      else
        KeysOfCons(q[0], rest);
        [q[0]] + rest
  }

  /** A query without pairs of `name` is its own `RemoveName`. */
  lemma {:induction false} RemoveNameAbsent(q: seq<(string, string)>, name: string)
    requires name !in KeysOf(q)
    ensures RemoveName(q, name) == q
    decreases |q|
  {
    if q != [] {
      assert q == [q[0]] + q[1..];
      KeysOfCons(q[0], q[1..]);
      RemoveNameAbsent(q[1..], name);
    }
  }

  /** The position of the first pair named `name`. */
  function FirstIndex(q: seq<(string, string)>, name: string): (f: nat)
    requires name in KeysOf(q)
    ensures f < |q| && q[f].0 == name
    ensures forall j :: 0 <= j < f ==> q[j].0 != name
  {
    assert q == [q[0]] + q[1..];
    KeysOfCons(q[0], q[1..]);
    if q[0].0 == name then 0 else 1 + FirstIndex(q[1..], name)
  }

  /** Sets the value of the first pair named `name` and removes the other pairs of that name. */
  function SetFirst(q: seq<(string, string)>, name: string, value: string): (r: seq<(string, string)>)
    requires name in KeysOf(q)
    ensures KeysOf(r) == KeysOf(q)
    ensures forall i :: 0 <= i < |r| && r[i].0 == name ==> r[i].1 == value
  {
    assert q == [q[0]] + q[1..];
    KeysOfCons(q[0], q[1..]);
    if q[0].0 == name then
      var rest := RemoveName(q[1..], name);
      var r := [(name, value)] + rest;
      KeysOfCons((name, value), rest);
      assert forall i :: 1 <= i < |r| ==> r[i] == rest[i - 1];
      assert forall i :: 0 <= i < |rest| ==> rest[i].0 in KeysOf(rest);
      r
    else
      var rest := SetFirst(q[1..], name, value);
      var r := [q[0]] + rest;
      KeysOfCons(q[0], rest);
      assert forall i :: 1 <= i < |r| ==> r[i] == rest[i - 1];
      r
  }

  /** At most one pair has first component `k`. */
  predicate AtMostOne<K(==), V>(q: seq<(K, V)>, k: K) {
    forall i, j :: 0 <= i < j < |q| && q[i].0 == k ==> q[j].0 != k
  }

  /** After `SetFirst` exactly one pair carries `name`. */
  lemma {:induction false} SetFirstUnique(q: seq<(string, string)>, name: string, value: string)
    requires name in KeysOf(q)
    ensures AtMostOne(SetFirst(q, name, value), name)
    decreases |q|
  {
    assert q == [q[0]] + q[1..];
    KeysOfCons(q[0], q[1..]);
    if q[0].0 == name {
      var rest := RemoveName(q[1..], name);
      assert forall i :: 0 <= i < |rest| ==> rest[i].0 in KeysOf(rest);
    } else {
      var rest := SetFirst(q[1..], name, value);
      SetFirstUnique(q[1..], name, value);
      assert AtMostOne(rest, name);
      var r := SetFirst(q, name, value);
      assert r == [q[0]] + rest;
      forall i, j | 0 <= i < j < |r| && r[i].0 == name
        ensures r[j].0 != name
      {
        assert r[0] == q[0];
        assert i > 0;
        assert r[i] == rest[i - 1] && r[j] == rest[j - 1];
        assert 0 <= i - 1 < j - 1 < |rest| && rest[i - 1].0 == name;
      }
    }
  }

  /** `SetFirst` keeps the pairs of other names, in order. */
  lemma {:induction false} SetFirstKeepsOthers(q: seq<(string, string)>, name: string, value: string)
    requires name in KeysOf(q)
    ensures RemoveName(SetFirst(q, name, value), name) == RemoveName(q, name)
    decreases |q|
  {
    var r := SetFirst(q, name, value);
    assert q == [q[0]] + q[1..];
    KeysOfCons(q[0], q[1..]);
    if q[0].0 == name {
      var rest := RemoveName(q[1..], name);
      assert r[1..] == rest;
      RemoveNameAbsent(rest, name);
    } else {
      SetFirstKeepsOthers(q[1..], name, value);
      assert r[1..] == SetFirst(q[1..], name, value);
    }
  }

  /** The pair set by `SetFirst` sits where the first pair of that name was; the pairs before it are unchanged. */
  lemma {:induction false} SetFirstPosition(q: seq<(string, string)>, name: string, value: string)
    requires name in KeysOf(q)
    ensures var r, f := SetFirst(q, name, value), FirstIndex(q, name);
      f < |r| && r[..f] == q[..f] && r[f] == (name, value)
    decreases |q|
  {
    assert q == [q[0]] + q[1..];
    KeysOfCons(q[0], q[1..]);
    if q[0].0 != name {
      var r, rest := SetFirst(q, name, value), SetFirst(q[1..], name, value);
      SetFirstPosition(q[1..], name, value);
      var f := FirstIndex(q[1..], name);
      assert r[..f + 1] == [q[0]] + rest[..f];
      assert q[..f + 1] == [q[0]] + q[1..][..f];
    }
  }

  /**
   * `URLSearchParams.set(name, value)`: the first pair of that name gets the value and the
   * others are removed; with no pair of that name, the pair is appended.
   */
  function SetParam(q: seq<(string, string)>, name: string, value: string): (r: seq<(string, string)>)
    ensures KeysOf(r) == KeysOf(q) + {name}
    ensures forall i :: 0 <= i < |r| && r[i].0 == name ==> r[i].1 == value
    ensures AtMostOne(r, name)
    ensures name !in KeysOf(q) ==> r == q + [(name, value)]
    ensures name in KeysOf(q) ==> RemoveName(r, name) == RemoveName(q, name)
    ensures name in KeysOf(q) ==>
      var f := FirstIndex(q, name); f < |r| && r[..f] == q[..f] && r[f] == (name, value)
  {
    if name in KeysOf(q) then
      SetFirstUnique(q, name, value);
      SetFirstKeepsOthers(q, name, value);
      SetFirstPosition(q, name, value);
      SetFirst(q, name, value)
    else
      KeysOfSnoc(q, (name, value));
      assert forall i :: 0 <= i < |q| ==> q[i].0 in KeysOf(q);
      q + [(name, value)]
  }

  /** The serialised query `k1=v1&k2=v2...`, each name and value passed through `encode`. */
  function Serialize(q: seq<(string, string)>, encode: string -> string): string
    decreases |q|
  {
    if q == [] then ""
    else
      var pair := encode(q[|q| - 1].0) + "=" + encode(q[|q| - 1].1);
      if |q| == 1 then pair else Serialize(q[..|q| - 1], encode) + "&" + pair
  }

  /** `url.toString()`: the base URL, with `?` and the query when there is at least one pair. */
  function WithQuery(baseUrl: string, q: seq<(string, string)>, encode: string -> string): (url: string)
    ensures baseUrl <= url
    ensures url == baseUrl <==> q == []
    ensures q != [] ==> url[|baseUrl|] == '?' && url[|baseUrl| + 1..] == Serialize(q, encode)
  {
    if q == [] then baseUrl else baseUrl + "?" + Serialize(q, encode)
  }

  /**
   * `buildListUrl(params)`: the base URL unchanged for absent or non-object params; otherwise
   * the base URL with the kept entries set one by one as search parameters, in entry order.
   */
  method BuildListUrl(baseUrl: string, params: ParamArg, encode: string -> string) returns (url: string)
    requires params.Object? ==> DistinctKeys(params.entries)
    ensures !params.Object? ==> url == baseUrl
    ensures params.Object? ==> url == WithQuery(baseUrl, KeptPairs(params.entries), encode)
  {
    if !params.Object? {
      return baseUrl;
    }
    var entries := params.entries;
    var search: seq<(string, string)> := [];
    var i := 0;
    while i < |entries|
      invariant 0 <= i <= |entries|
      invariant search == KeptPairs(entries[..i])
      invariant KeysOf(search) <= KeysOf(entries[..i])
    {
      var name, v := entries[i].0, entries[i].1;
      assert entries[..i + 1] == entries[..i] + [entries[i]];
      KeysOfSnoc(entries[..i], entries[i]);
      if Kept(v) {
        assert name !in KeysOf(entries[..i]);
        search := SetParam(search, name, ToText(v.v));
      }
      i := i + 1;
    }
    assert entries[..i] == entries;
    url := WithQuery(baseUrl, search, encode);
  }

  /** Keeping entries commutes with concatenation, so the pairs come out in entry order. */
  lemma {:induction false} KeptPairsAppend(a: seq<(string, ParamValue)>, b: seq<(string, ParamValue)>)
    ensures KeptPairs(a + b) == KeptPairs(a) + KeptPairs(b)
    decreases |b|
  {
    if b != [] {
      var b' := b[..|b| - 1];
      assert (a + b)[..|a + b| - 1] == a + b';
      assert (a + b)[|a + b| - 1] == b[|b| - 1];
      KeptPairsAppend(a, b');
    } else {
      assert a + b == a;
    }
  }

  /** A pair is in the query exactly when some entry with that name is kept and has that text. */
  lemma {:induction false} KeptPairsMembers(entries: seq<(string, ParamValue)>, name: string, text: string)
    ensures (name, text) in KeptPairs(entries) <==>
      exists i :: 0 <= i < |entries| && entries[i].0 == name && Kept(entries[i].1) && ToText(entries[i].1.v) == text
    decreases |entries|
  {
    if entries != [] {
      var init := entries[..|entries| - 1];
      KeptPairsMembers(init, name, text);
      if (name, text) in KeptPairs(init) {
        var i :| 0 <= i < |init| && init[i].0 == name && Kept(init[i].1) && ToText(init[i].1.v) == text;
        assert entries[i] == init[i];
      }
      if exists i :: 0 <= i < |entries| && entries[i].0 == name && Kept(entries[i].1) && ToText(entries[i].1.v) == text {
        var i :| 0 <= i < |entries| && entries[i].0 == name && Kept(entries[i].1) && ToText(entries[i].1.v) == text;
        if i < |init| {
          assert init[i] == entries[i];
        }
      }
    }
  }

  /** With distinct names, an entry that is dropped leaves no pair of its name in the query. */
  lemma DroppedEntryAbsent(entries: seq<(string, ParamValue)>, i: int)
    requires DistinctKeys(entries)
    requires 0 <= i < |entries| && !Kept(entries[i].1)
    ensures forall j :: 0 <= j < |KeptPairs(entries)| ==> KeptPairs(entries)[j].0 != entries[i].0
  {
    var q := KeptPairs(entries);
    forall j | 0 <= j < |q|
      ensures q[j].0 != entries[i].0
    {
      KeptPairsMembers(entries, q[j].0, q[j].1);
      assert q[j] in q;
    }
  }

  /** The test of the list URL: `{ status: "active", q: "test" }` gives `?status=active&q=test`. */
  lemma ListUrlExample()
    ensures WithQuery("https://api.test/items",
                      KeptPairs([("status", Value(PString("active"))), ("q", Value(PString("test")))]),
                      s => s)
         == "https://api.test/items?status=active&q=test"
    ensures KeptPairs([("a", Value(PString("only"))), ("b", Value(PString("")))]) == [("a", "only")]
  {
    var two := [("status", Value(PString("active"))), ("q", Value(PString("test")))];
    assert two[..1] == [("status", Value(PString("active")))];
    assert KeptPairs(two[..1][..0]) == [];
    var mixed := [("a", Value(PString("only"))), ("b", Value(PString("")))];
    assert mixed[..1] == [("a", Value(PString("only")))];
    assert KeptPairs(mixed[..1][..0]) == [];
  }

  // ---------------------------------------------------------------------------
  // Configuration and the two reads
  // ---------------------------------------------------------------------------

  /**
   * The service configuration: the optional list parsers are functions of the response
   * body `B`; `parseListResponse` returns the list and the remaining envelope fields.
   */
  datatype Config<-B, F, M> = Config(
    entityKey: string,
    baseUrl: string,
    notFoundMessage: Option<string>,
    listFromResponse: Option<B -> seq<Entity<F>>>,
    parseListResponse: Option<B -> (seq<Entity<F>>, M)>)

  /** `hasListMeta`: whether cached lists are envelopes. */
  predicate HasListMeta<B, F, M>(cfg: Config<B, F, M>) {
    cfg.parseListResponse.Some?
  }

  /** What the list query hands back: list data, or the body itself when no parser is configured. */
  datatype ListValue<B, F, M> = Data(data: ListData<F, M>) | RawBody(body: B)

  /** The list `queryFn` after the fetch: fail on a non-ok status, else the first configured extraction. */
  function ReadList<B, F, M>(cfg: Config<B, F, M>, ok: bool, body: B): (r: Result<ListValue<B, F, M>, string>)
    ensures r.Failure? <==> !ok
    ensures r.Failure? ==> r.error == "Failed to fetch " + cfg.entityKey
    ensures r.Success? && cfg.parseListResponse.Some? ==>
      r.value == Data(Envelope(cfg.parseListResponse.value(body).0, cfg.parseListResponse.value(body).1))
    ensures r.Success? && cfg.parseListResponse.None? && cfg.listFromResponse.Some? ==>
      r.value == Data(Plain(cfg.listFromResponse.value(body)))
    ensures r.Success? && cfg.parseListResponse.None? && cfg.listFromResponse.None? ==> r.value == RawBody(body)
  {
    if !ok then Failure("Failed to fetch " + cfg.entityKey)
    else if cfg.parseListResponse.Some? then
      var parsed := cfg.parseListResponse.value(body);
      Success(Data(Envelope(parsed.0, parsed.1)))
    else if cfg.listFromResponse.Some? then Success(Data(Plain(cfg.listFromResponse.value(body))))
    else Success(RawBody(body))
  }

  /** `notFoundMessage`, defaulting to "Not found". */
  function NotFoundMessage<B, F, M>(cfg: Config<B, F, M>): (msg: string)
    ensures cfg.notFoundMessage.None? ==> msg == "Not found"
    ensures cfg.notFoundMessage.Some? ==> msg == cfg.notFoundMessage.value
  {
    cfg.notFoundMessage.GetOr("Not found")
  }

  /** The request the detail query makes: none while `!!id` is false, else `${baseUrl}/${id}`. */
  function ItemRequest<B, F, M>(cfg: Config<B, F, M>, id: int): (url: Option<string>)
    ensures url.None? <==> id == 0
  {
    if id == 0 then None else Some(cfg.baseUrl + "/" + JsText.IntToText(id))
  }

  /** The detail `queryFn` after the fetch: fail with `notFoundMessage` on a non-ok status, else the body. */
  function ReadItem<B, F, M>(cfg: Config<B, F, M>, ok: bool, body: B): (r: Result<B, string>)
    ensures r.Failure? <==> !ok
    ensures r.Failure? ==> r.error == NotFoundMessage(cfg)
    ensures r.Success? ==> r.value == body
  {
    if !ok then Failure(NotFoundMessage(cfg)) else Success(body)
  }

  /** Distinct ids are requested at distinct URLs, so each detail request names its entity. */
  lemma ItemRequestIdentifiesId<B, F, M>(cfg: Config<B, F, M>, a: int, b: int)
    requires ItemRequest(cfg, a).Some? && ItemRequest(cfg, a) == ItemRequest(cfg, b)
    ensures a == b
  {
    var prefix := cfg.baseUrl + "/";
    var ua, ub := ItemRequest(cfg, a).value, ItemRequest(cfg, b).value;
    assert ua[|prefix|..] == JsText.IntToText(a);
    assert ub[|prefix|..] == JsText.IntToText(b);
    JsText.IntToTextInjective(a, b);
  }

  // ---------------------------------------------------------------------------
  // Optimistic list updaters
  // ---------------------------------------------------------------------------

  /** `isListResponse`: the cached value is an envelope and the service has a list parser. */
  predicate IsListResponse<F, M>(hasListMeta: bool, cached: Option<ListData<F, M>>) {
    hasListMeta && cached.Some? && cached.value.Envelope?
  }

  /**
   * On a value of conforming shape, the `isListResponse` test is exactly "the value is an
   * envelope"; without a parser it never holds.
   */
  lemma IsListResponseExact<F, M>(hasListMeta: bool, cached: Option<ListData<F, M>>)
    requires Conforms(hasListMeta, cached)
    ensures IsListResponse(hasListMeta, cached) <==> cached.Some? && cached.value.Envelope?
    ensures !hasListMeta ==> !IsListResponse(hasListMeta, cached)
  {
  }

  /**
   * The shape the cached value of a list key can have: an envelope only when the service
   * parses envelopes (without a parser the list data type is the bare array).
   */
  predicate Conforms<F, M>(hasListMeta: bool, cached: Option<ListData<F, M>>) {
    cached.Some? && cached.value.Envelope? ==> hasListMeta
  }

  /** `arr`: the envelope's list, the bare array, or `[]` for a missing entry. */
  function OldItems<F, M>(hasListMeta: bool, cached: Option<ListData<F, M>>): (arr: seq<Entity<F>>)
    requires Conforms(hasListMeta, cached)
    ensures arr == if cached.None? then [] else Items(cached.value)
  {
    if IsListResponse(hasListMeta, cached) then cached.value.list
    else if cached.None? then [] else cached.value.items
  }

  /** The updater's result: `{ ...cached, list: next }` for an envelope, else `next`. */
  function WithItems<F, M>(hasListMeta: bool, cached: Option<ListData<F, M>>, next: seq<Entity<F>>): (r: ListData<F, M>)
    ensures Items(r) == next
    ensures r.Envelope? <==> IsListResponse(hasListMeta, cached)
    ensures r.Envelope? ==> r.meta == cached.value.meta
  {
    if IsListResponse(hasListMeta, cached) then Envelope(next, cached.value.meta) else Plain(next)
  }

  /** The create updater: the temporary entity (submitted fields, temporary id) goes in front. */
  function CreateUpdater<F, M>(hasListMeta: bool, newItem: F, tempId: int, cached: Option<ListData<F, M>>): (r: ListData<F, M>)
    requires Conforms(hasListMeta, cached)
    ensures Items(r) == [Entity(tempId, newItem)] + OldItems(hasListMeta, cached)
    ensures r.Envelope? <==> IsListResponse(hasListMeta, cached)
    ensures r.Envelope? ==> r.meta == cached.value.meta
  {
    WithItems(hasListMeta, cached, [Entity(tempId, newItem)] + OldItems(hasListMeta, cached))
  }

  /** `arr.filter(item => item.id !== id)`. */
  function RemoveId<F>(s: seq<Entity<F>>, id: int): (r: seq<Entity<F>>)
    ensures |r| <= |s|
    ensures forall i :: 0 <= i < |r| ==> r[i] in s && r[i].id != id
    ensures forall i :: 0 <= i < |s| && s[i].id != id ==> s[i] in r
  {
    if s == [] then []
    else
      var rest := RemoveId(s[1..], id);
      assert forall i :: 1 <= i < |s| ==> s[i] == s[1..][i - 1];
      if s[0].id == id then rest
      else
        var r := [s[0]] + rest;
        assert forall i :: 1 <= i < |r| ==> r[i] == rest[i - 1];
        r
  }

  /** The filter keeps every copy of a survivor: each entity occurs as often as before, or not at all if it has the id. */
  lemma {:induction false} RemoveIdCounts<F>(s: seq<Entity<F>>, id: int, x: Entity<F>)
    ensures multiset(RemoveId(s, id))[x] == if x.id == id then 0 else multiset(s)[x]
    decreases |s|
  {
    if s != [] {
      assert s == [s[0]] + s[1..];
      RemoveIdCounts(s[1..], id, x);
    }
  }

  /** The delete updater: the entities with the deleted id are filtered out. */
  function DeleteUpdater<F, M>(hasListMeta: bool, id: int, cached: Option<ListData<F, M>>): (r: ListData<F, M>)
    requires Conforms(hasListMeta, cached)
    ensures Items(r) == RemoveId(OldItems(hasListMeta, cached), id)
    ensures r.Envelope? <==> IsListResponse(hasListMeta, cached)
    ensures r.Envelope? ==> r.meta == cached.value.meta
  {
    WithItems(hasListMeta, cached, RemoveId(OldItems(hasListMeta, cached), id))
  }

  /** `sub` is `s` with some elements left out, the rest in their original order. */
  ghost predicate IsSubsequence<T>(sub: seq<T>, s: seq<T>)
    decreases |s|
  {
    if sub == [] then true
    else if s == [] then false
    else if sub[0] == s[0] then IsSubsequence(sub[1..], s[1..])
    else IsSubsequence(sub, s[1..])
  }

  /** The create updater grows the list by one: the temporary entity at index 0, the cached list after it. */
  lemma CreateUpdaterPrepends<F, M>(hasListMeta: bool, newItem: F, tempId: int, cached: Option<ListData<F, M>>)
    requires Conforms(hasListMeta, cached)
    ensures var r := CreateUpdater(hasListMeta, newItem, tempId, cached);
      && |Items(r)| == |OldItems(hasListMeta, cached)| + 1
      && Items(r)[0].id == tempId && Items(r)[0].fields == newItem
      && Items(r)[1..] == OldItems(hasListMeta, cached)
      && (cached.None? ==> r == Plain([Entity(tempId, newItem)]))
      && (cached.Some? && cached.value.Plain? ==> r == Plain([Entity(tempId, newItem)] + cached.value.items))
      && Conforms(hasListMeta, Some(r))
  {
    var r := CreateUpdater(hasListMeta, newItem, tempId, cached);
    assert Items(r)[1..] == OldItems(hasListMeta, cached);
  }

  /** Survivors of the filter keep their relative order. */
  lemma {:induction false} RemoveIdIsSubsequence<F>(s: seq<Entity<F>>, id: int)
    ensures IsSubsequence(RemoveId(s, id), s)
    decreases |s|
  {
    if s != [] {
      RemoveIdIsSubsequence(s[1..], id);
      var rest := RemoveId(s[1..], id);
      if s[0].id != id {
        var r := [s[0]] + rest;
        assert r[1..] == rest;
      } else {
        SubsequenceOfTail(rest, s);
      }
    }
  }

  /** A subsequence of the tail is a subsequence of the whole. */
  lemma {:induction false} SubsequenceOfTail<T>(sub: seq<T>, s: seq<T>)
    requires s != [] && IsSubsequence(sub, s[1..])
    ensures IsSubsequence(sub, s)
    decreases |s|
  {
    if sub != [] && sub[0] == s[0] {
      var t := s[1..];
      SubsequenceDropHead(sub, t);
      SubsequenceOfTail(sub[1..], t);
    }
  }

  /** A non-empty subsequence stays one when its first element is dropped. */
  lemma {:induction false} SubsequenceDropHead<T>(sub: seq<T>, s: seq<T>)
    requires sub != [] && IsSubsequence(sub, s)
    ensures IsSubsequence(sub[1..], s[1..])
    decreases |s|
  {
    if sub[0] != s[0] {
      var t := s[1..];
      SubsequenceDropHead(sub, t);
      SubsequenceOfTail(sub[1..], t);
    }
  }

  /** Filtering out an id a second time changes nothing. */
  lemma {:induction false} RemoveIdIdempotent<F>(s: seq<Entity<F>>, id: int)
    ensures RemoveId(RemoveId(s, id), id) == RemoveId(s, id)
    decreases |s|
  {
    if s != [] {
      RemoveIdIdempotent(s[1..], id);
      var rest := RemoveId(s[1..], id);
      if s[0].id != id {
        var r := [s[0]] + rest;
        assert r[1..] == rest;
      }
    }
  }

  /** Deleting an id no entity has leaves the list as it was. */
  lemma {:induction false} RemoveIdAbsent<F>(s: seq<Entity<F>>, id: int)
    requires forall i :: 0 <= i < |s| ==> s[i].id != id
    ensures RemoveId(s, id) == s
    decreases |s|
  {
    if s != [] {
      RemoveIdAbsent(s[1..], id);
      assert [s[0]] + s[1..] == s;
    }
  }

  /** The delete updater: no entity with the id remains, order is kept, a second application changes nothing. */
  lemma DeleteUpdaterProperties<F, M>(hasListMeta: bool, id: int, cached: Option<ListData<F, M>>)
    requires Conforms(hasListMeta, cached)
    ensures var r := DeleteUpdater(hasListMeta, id, cached);
      && (forall i :: 0 <= i < |Items(r)| ==> Items(r)[i].id != id)
      && IsSubsequence(Items(r), OldItems(hasListMeta, cached))
      && (cached.None? ==> r == Plain([]))
      && Conforms(hasListMeta, Some(r))
      && DeleteUpdater(hasListMeta, id, Some(r)) == r
  {
    var items := OldItems(hasListMeta, cached);
    RemoveIdIsSubsequence(items, id);
    RemoveIdIdempotent(items, id);
  }

  /** A list read that yields list data has the shape the updaters accept. */
  lemma ReadListConforms<B, F, M>(cfg: Config<B, F, M>, ok: bool, body: B)
    requires ReadList(cfg, ok, body).Success? && ReadList(cfg, ok, body).value.Data?
    ensures Conforms(HasListMeta(cfg), Some(ReadList(cfg, ok, body).value.data))
    ensures IsListResponse(HasListMeta(cfg), Some(ReadList(cfg, ok, body).value.data)) <==> HasListMeta(cfg)
  {
  }

  /** The two optimistic edits. */
  datatype Updater<F> = Prepend(newItem: F, tempId: int) | Remove(id: int)

  function Update<F, M>(u: Updater<F>, hasListMeta: bool, cached: Option<ListData<F, M>>): (r: ListData<F, M>)
    requires Conforms(hasListMeta, cached)
    ensures Conforms(hasListMeta, Some(r))
  {
    match u
    case Prepend(newItem, tempId) => CreateUpdater(hasListMeta, newItem, tempId, cached)
    case Remove(id) => DeleteUpdater(hasListMeta, id, cached)
  }

  // ---------------------------------------------------------------------------
  // The query cache as one service sees it
  // ---------------------------------------------------------------------------

  /** The `previous` context of a mutation: the pairs `getQueriesData` returned. */
  type Snapshot<F, M> = seq<(Key, Option<ListData<F, M>>)>

  /** The keys of the pairs of a snapshot that hold data. */
  ghost function DefinedKeys<F, M>(s: Snapshot<F, M>): set<Key> {
    set i | 0 <= i < |s| && s[i].1.Some? :: s[i].0
  }

  lemma DefinedKeysSnoc<F, M>(s: Snapshot<F, M>, x: (Key, Option<ListData<F, M>>))
    ensures DefinedKeys(s + [x]) == DefinedKeys(s) + (if x.1.Some? then {x.0} else {})
  {
    var r := s + [x];
    forall k | k in DefinedKeys(r)
      ensures k in DefinedKeys(s) + (if x.1.Some? then {x.0} else {})
    {
      var i :| 0 <= i < |r| && r[i].1.Some? && r[i].0 == k;
      if i < |s| {
        assert s[i] == r[i];
      }
    }
    forall k | k in DefinedKeys(s)
      ensures k in DefinedKeys(r)
    {
      var i :| 0 <= i < |s| && s[i].1.Some? && s[i].0 == k;
      assert r[i] == s[i];
    }
    assert r[|s|] == x;
  }

  /**
   * The cache entries of one service: `lists` maps each registered query key to its data
   * (None while the query has no data yet), `details` holds detail entries.
   */
  class QueryCache<F, M> {
    const entityKey: string
    const hasListMeta: bool
    var lists: map<Key, Option<ListData<F, M>>>
    var details: map<Key, Entity<F>>

    /**
     * The two maps are one keyed cache split by the kind of data an entry holds, so no key
     * is in both; every list entry of this service has the shape the updaters accept.
     */
    ghost predicate Valid()
      reads this
    {
      && lists.Keys !! details.Keys
      && forall k :: k in lists && MatchesLists(entityKey, k) ==> Conforms(hasListMeta, lists[k])
    }

    ghost function MatchingKeys(): set<Key>
      reads this
    {
      set k | k in lists && MatchesLists(entityKey, k)
    }

    constructor (entityKey: string, hasListMeta: bool, initial: map<Key, Option<ListData<F, M>>>)
      requires forall k :: k in initial && MatchesLists(entityKey, k) ==> Conforms(hasListMeta, initial[k])
      ensures Valid()
      ensures this.entityKey == entityKey && this.hasListMeta == hasListMeta
      ensures lists == initial && details == map[]
    {
      this.entityKey := entityKey;
      this.hasListMeta := hasListMeta;
      lists := initial;
      details := map[];
    }

    /** `getQueriesData({ queryKey: lists() })`: one pair per matching query, in unspecified order. */
    method Snapshot() returns (previous: Snapshot<F, M>)
      ensures DistinctKeys(previous)
      ensures KeysOf(previous) == MatchingKeys()
      ensures forall i :: 0 <= i < |previous| ==> previous[i].0 in lists && previous[i].1 == lists[previous[i].0]
    {
      previous := [];
      var remaining := set k | k in lists && MatchesLists(entityKey, k);
      while remaining != {}
        invariant remaining !! KeysOf(previous)
        invariant remaining + KeysOf(previous) == MatchingKeys()
        invariant DistinctKeys(previous)
        invariant forall i :: 0 <= i < |previous| ==> previous[i].0 in lists && previous[i].1 == lists[previous[i].0]
        decreases remaining
      {
        var k :| k in remaining;
        var next := previous + [(k, lists[k])];
        KeysOfSnoc(previous, (k, lists[k]));
        previous := next;
        remaining := remaining - {k};
      }
    }

    /** `setQueriesData({ queryKey: lists() }, updater)`: every matching entry is replaced by the updater's result. */
    method ApplyUpdater(u: Updater<F>)
      requires Valid()
      modifies this
      ensures Valid()
      ensures lists.Keys == old(lists).Keys && details == old(details)
      ensures forall k :: k in lists ==>
        lists[k] == if MatchesLists(entityKey, k) then Some(Update(u, hasListMeta, old(lists)[k])) else old(lists)[k]
    {
      lists := map k | k in lists :: if MatchesLists(entityKey, k) then Some(Update(u, hasListMeta, lists[k])) else lists[k];
    }

    /** `onMutate` of create and delete: snapshot the list entries, then apply the optimistic edit. */
    method OnMutate(u: Updater<F>) returns (previous: Snapshot<F, M>)
      requires Valid()
      modifies this
      ensures Valid()
      ensures DistinctKeys(previous) && KeysOf(previous) == old(MatchingKeys())
      ensures forall i :: 0 <= i < |previous| ==> previous[i].0 in old(lists) && previous[i].1 == old(lists)[previous[i].0]
      ensures lists.Keys == old(lists).Keys && details == old(details)
      ensures forall k :: k in lists ==>
        lists[k] == if MatchesLists(entityKey, k) then Some(Update(u, hasListMeta, old(lists)[k])) else old(lists)[k]
    {
      previous := Snapshot();
      ApplyUpdater(u);
    }

    /**
     * `setQueryData(key, data)` as the cache library performs it: `undefined` leaves the entry
     * as it is; any other value replaces it.
     */
    method SetQueryData(key: Key, data: Option<ListData<F, M>>)
      requires Valid()
      requires MatchesLists(entityKey, key) ==> Conforms(hasListMeta, data)
      modifies this
      ensures Valid()
      ensures lists == if data.Some? then old(lists)[key := data] else old(lists)
      ensures details == if data.Some? then old(details) - {key} else old(details)
    {
      if data.Some? {
        lists := lists[key := data];
        details := details - {key};
      }
    }

    /**
     * `onError` as written: `setQueryData` for each snapshotted pair. A pair whose value was
     * `undefined` is skipped by the library, so that entry keeps the optimistic edit.
     */
    method RollbackAsWritten(previous: Snapshot<F, M>)
      requires Valid()
      requires DistinctKeys(previous)
      requires forall i :: 0 <= i < |previous| && MatchesLists(entityKey, previous[i].0) ==> Conforms(hasListMeta, previous[i].1)
      modifies this
      ensures Valid()
      ensures forall i :: 0 <= i < |previous| && previous[i].1.Some? ==>
        previous[i].0 in lists && lists[previous[i].0] == previous[i].1
      ensures lists.Keys == old(lists).Keys + DefinedKeys(previous)
      ensures forall k :: k in old(lists) && k !in DefinedKeys(previous) ==> lists[k] == old(lists)[k]
      ensures details == old(details) - DefinedKeys(previous)
    {
      for n := 0 to |previous|
        invariant Valid()
        invariant details == old(details) - DefinedKeys(previous[..n])
        invariant lists.Keys == old(lists).Keys + DefinedKeys(previous[..n])
        invariant forall i :: 0 <= i < n && previous[i].1.Some? ==>
          previous[i].0 in lists && lists[previous[i].0] == previous[i].1
        invariant forall k :: k in old(lists) && k !in DefinedKeys(previous[..n]) ==> lists[k] == old(lists)[k]
      {
        assert previous[..n + 1] == previous[..n] + [previous[n]];
        DefinedKeysSnoc(previous[..n], previous[n]);
        SetQueryData(previous[n].0, previous[n].1);
      }
      assert previous[..|previous|] == previous;
    }

    /** `onError` with the evidently intended effect: every snapshotted key gets back exactly its snapshotted value. */
    method Rollback(previous: Snapshot<F, M>)
      requires Valid()
      requires DistinctKeys(previous)
      requires forall i :: 0 <= i < |previous| && MatchesLists(entityKey, previous[i].0) ==> Conforms(hasListMeta, previous[i].1)
      modifies this
      ensures Valid()
      ensures lists.Keys == old(lists).Keys + KeysOf(previous)
      ensures forall i :: 0 <= i < |previous| ==> lists[previous[i].0] == previous[i].1
      ensures forall k :: k in old(lists) && k !in KeysOf(previous) ==> lists[k] == old(lists)[k]
      ensures details == old(details) - KeysOf(previous)
    {
      for n := 0 to |previous|
        invariant Valid()
        invariant details == old(details) - KeysOf(previous[..n])
        invariant lists.Keys == old(lists).Keys + KeysOf(previous[..n])
        invariant forall i :: 0 <= i < n ==> lists[previous[i].0] == previous[i].1
        invariant forall k :: k in old(lists) && k !in KeysOf(previous[..n]) ==> lists[k] == old(lists)[k]
      {
        assert previous[..n + 1] == previous[..n] + [previous[n]];
        KeysOfSnoc(previous[..n], previous[n]);
        lists := lists[previous[n].0 := previous[n].1];
        details := details - {previous[n].0};
      }
      assert previous[..|previous|] == previous;
    }

    /** `onError(err, vars, context)` with the corrected `Rollback`: nothing when onMutate produced no context. */
    method OnError(context: Option<Snapshot<F, M>>)
      requires Valid()
      requires context.Some? ==> DistinctKeys(context.value)
      requires context.Some? ==> forall i :: 0 <= i < |context.value| && MatchesLists(entityKey, context.value[i].0) ==>
        Conforms(hasListMeta, context.value[i].1)
      modifies this
      ensures Valid()
      ensures context.None? ==> lists == old(lists)
      ensures context.Some? ==> lists.Keys == old(lists).Keys + KeysOf(context.value)
      ensures context.Some? ==> forall i :: 0 <= i < |context.value| ==> lists[context.value[i].0] == context.value[i].1
      ensures context.Some? ==> forall k :: k in old(lists) && k !in KeysOf(context.value) ==> lists[k] == old(lists)[k]
      ensures details == if context.Some? then old(details) - KeysOf(context.value) else old(details)
    {
      if context.Some? {
        Rollback(context.value);
      }
    }

    /** `onError(err, vars, context)` as written: nothing without a context, else `RollbackAsWritten`. */
    method OnErrorAsWritten(context: Option<Snapshot<F, M>>)
      requires Valid()
      requires context.Some? ==> DistinctKeys(context.value)
      requires context.Some? ==> forall i :: 0 <= i < |context.value| && MatchesLists(entityKey, context.value[i].0) ==>
        Conforms(hasListMeta, context.value[i].1)
      modifies this
      ensures Valid()
      ensures context.None? ==> lists == old(lists) && details == old(details)
      ensures context.Some? ==> forall i :: 0 <= i < |context.value| && context.value[i].1.Some? ==>
        context.value[i].0 in lists && lists[context.value[i].0] == context.value[i].1
      ensures context.Some? ==> lists.Keys == old(lists).Keys + DefinedKeys(context.value)
      ensures context.Some? ==> forall k :: k in old(lists) && k !in DefinedKeys(context.value) ==> lists[k] == old(lists)[k]
      ensures context.Some? ==> details == old(details) - DefinedKeys(context.value)
    {
      if context.Some? {
        RollbackAsWritten(context.value);
      }
    }

    /**
     * A create or delete whose request fails, with `onError` as written: every list entry is
     * back to its pre-mutation value, except a matching entry that had no data, which keeps
     * the optimistic edit.
     */
    method FailedMutationAsWritten(u: Updater<F>)
      requires Valid()
      modifies this
      ensures Valid()
      ensures lists.Keys == old(lists).Keys && details == old(details)
      ensures forall k :: k in old(lists) ==>
        lists[k] == if MatchesLists(entityKey, k) && old(lists)[k].None? then Some(Update(u, hasListMeta, None)) else old(lists)[k]
    {
      var previous := OnMutate(u);
      ghost var optimistic := lists;
      forall i | 0 <= i < |previous| && MatchesLists(entityKey, previous[i].0)
        ensures Conforms(hasListMeta, previous[i].1)
      {
        assert previous[i].0 in old(MatchingKeys());
      }
      assert DefinedKeys(previous) <= KeysOf(previous);
      OnErrorAsWritten(Some(previous));
      forall k | k in old(lists)
        ensures lists[k] == if MatchesLists(entityKey, k) && old(lists)[k].None? then Some(Update(u, hasListMeta, None)) else old(lists)[k]
      {
        if MatchesLists(entityKey, k) {
          assert k in old(MatchingKeys());
          var i :| 0 <= i < |previous| && previous[i].0 == k;
          if old(lists)[k].None? {
            assert forall j :: 0 <= j < |previous| && previous[j].0 == k ==> j == i;
            assert k !in DefinedKeys(previous);
            assert lists[k] == optimistic[k];
          }
        } else {
          assert k !in KeysOf(previous);
          assert lists[k] == optimistic[k];
        }
      }
    }

    /** A mutation whose request fails: onMutate, then the corrected onError with its context. */
    method FailedMutation(u: Updater<F>)
      requires Valid()
      modifies this
      ensures Valid()
      ensures lists == old(lists) && details == old(details)
    {
      var previous := OnMutate(u);
      forall i | 0 <= i < |previous| && MatchesLists(entityKey, previous[i].0)
        ensures Conforms(hasListMeta, previous[i].1)
      {
        assert previous[i].0 in old(MatchingKeys());
      }
      OnError(Some(previous));
      forall k | k in lists
        ensures k in old(lists) && lists[k] == old(lists)[k]
      {
        if k in KeysOf(previous) {
          var i :| 0 <= i < |previous| && previous[i].0 == k;
        }
      }
    }

    /** With the corrected onError, a create whose request fails leaves every list entry exactly as it was. */
    method FailedCreate(newItem: F, tempId: int)
      requires Valid()
      modifies this
      ensures Valid()
      ensures lists == old(lists) && details == old(details)
    {
      FailedMutation(Prepend(newItem, tempId));
    }

    /** With the corrected onError, a delete whose request fails leaves every list entry exactly as it was, envelope metadata included. */
    method FailedDelete(id: int)
      requires Valid()
      modifies this
      ensures Valid()
      ensures lists == old(lists) && details == old(details)
    {
      FailedMutation(Remove(id));
    }

    /** `onSuccess` of update: the response body is written under `detail(data.id)`. */
    method OnUpdateSuccess(data: Entity<F>)
      requires Valid()
      modifies this
      ensures Valid()
      ensures details == old(details)[Detail(entityKey, data.id) := data]
      ensures lists == old(lists) - {Detail(entityKey, data.id)}
    {
      details := details[Detail(entityKey, data.id) := data];
      lists := lists - {Detail(entityKey, data.id)};
    }
  }

  /**
   * With the library's `setQueryData`, a list query that had no data before a failed create
   * keeps the temporary entity after `onError` as written.
   */
  method UndefinedEntryKeepsOptimisticItem<F, M>(entityKey: string, newItem: F, tempId: int)
    returns (before: Option<ListData<F, M>>, after: Option<ListData<F, M>>)
    ensures before == None
    ensures after == Some(Plain([Entity(tempId, newItem)]))
  {
    var key := Lists(entityKey, Missing);
    var cache := new QueryCache<F, M>(entityKey, false, map[key := None]);
    before := cache.lists[key];
    var previous := cache.OnMutate(Prepend(newItem, tempId));
    assert forall i :: 0 <= i < |previous| ==> previous[i].1.None?;
    assert MatchesLists(entityKey, key);
    var optimistic := cache.lists[key];
    assert optimistic == Some(CreateUpdater(false, newItem, tempId, None));
    assert Items(optimistic.value) == [Entity(tempId, newItem)];
    cache.RollbackAsWritten(previous);
    after := cache.lists[key];
    assert after == optimistic;
  }

  /** The corrected rollback restores the same scenario: the query has no data again. */
  method UndefinedEntryRestored<F, M>(entityKey: string, newItem: F, tempId: int)
    returns (before: Option<ListData<F, M>>, after: Option<ListData<F, M>>)
    ensures before == None && after == before
  {
    var key := Lists(entityKey, Missing);
    var cache := new QueryCache<F, M>(entityKey, false, map[key := None]);
    before := cache.lists[key];
    cache.FailedCreate(newItem, tempId);
    after := cache.lists[key];
  }
}
