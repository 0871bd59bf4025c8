/**
 * The route that renders the documentation frame
 * (packages/gitbook/src/app/docs/page.tsx, DocsProxy).
 *
 * From the path segments and the query parameters of the request under
 * `/docs` it assembles the first address of the frame: the segments joined
 * under `/url/gitbook.com/docs/`, then the query. The query is built in
 * place: every element of an array-valued parameter is appended under the
 * parameter's name, a single value is set once, and a missing value adds
 * nothing.
 */
module InitialSource {
  import opened Wrappers
  import opened Paths

  /** The value of one query parameter as the router hands it over. */
  datatype ParamValue = Many(items: seq<string>) | One(item: string) | Missing

  /** One `[key, value]` of `Object.entries(searchParams)`. */
  type Entry = (string, ParamValue)

  /** One name/value pair held by a `URLSearchParams`. */
  type Pair = (string, string)

  /** The entries of a record: no key occurs twice. */
  ghost predicate DistinctKeys(entries: seq<Entry>) {
    forall i, j :: 0 <= i < j < |entries| ==> entries[i].0 != entries[j].0
  }

  /** `segments.join('/')`. */
  function Join(segments: seq<string>): (r: string)
    ensures segments == [] ==> r == ""
    ensures |segments| == 1 ==> r == segments[0]
    ensures r == "" <==> segments == [] || segments == [""]
  {
    if segments == [] then ""
    else if |segments| == 1 then segments[0]
    else segments[0] + "/" + Join(segments[1..])
  }

  /** Joining two non-empty lists of segments puts one `/` between the
      two joins. */
  lemma {:induction false} JoinConcat(a: seq<string>, b: seq<string>)
    requires a != [] && b != []
    ensures Join(a + b) == Join(a) + "/" + Join(b)
  {
    assert (a + b)[0] == a[0];
    if |a| == 1 {
      assert (a + b)[1..] == b;
    } else {
      assert (a + b)[1..] == a[1..] + b;
      JoinConcat(a[1..], b);
    }
  }

  /** The path suffix: `(params.path ?? []).join('/')`. It is empty when
      there are no segments, or only one empty segment. */
  function Suffix(path: Option<seq<string>>): (r: string)
    ensures r == "" <==> path.None? || path.value == [] || path.value == [""]
  {
    Join(path.GetOr([]))
  }

  /** Whether some pair of `qs` has the name `k`. */
  predicate HasKey(qs: seq<Pair>, k: string) {
    exists i :: 0 <= i < |qs| && qs[i].0 == k
  }

  /** `URLSearchParams.append`: a new pair at the end. Afterwards `getAll`
      of `k` gives what it gave before followed by `v`, and every other
      name gives what it gave before. */
  function Append(qs: seq<Pair>, k: string, v: string): (r: seq<Pair>)
    ensures GetAll(r, k) == GetAll(qs, k) + [v]
    ensures forall n :: n != k ==> GetAll(r, n) == GetAll(qs, n)
  {
    var r := qs + [(k, v)];
    assert r[..|r| - 1] == qs;
    r
  }

  /** All pairs of `qs` except those named `k`. */
  function Without(qs: seq<Pair>, k: string): (r: seq<Pair>)
    ensures !HasKey(r, k)
    ensures |r| <= |qs|
    ensures forall p :: p in r <==> p in qs && p.0 != k
  {
    if qs == [] then []
    else if qs[0].0 == k then Without(qs[1..], k)
    else [qs[0]] + Without(qs[1..], k)
  }

  /** `URLSearchParams.set`: the first pair named `k` takes the value `v`
      and every later pair named `k` goes; with no such pair, the pair is
      appended. */
  function Set(qs: seq<Pair>, k: string, v: string): (r: seq<Pair>)
    ensures !HasKey(qs, k) ==> r == Append(qs, k, v)
  {
    if !HasKey(qs, k) then Append(qs, k, v)
    else if qs[0].0 == k then [(k, v)] + Without(qs[1..], k)
    else [qs[0]] + Set(qs[1..], k, v)
  }

  /** The pairs `(k, items[0]) … (k, items[n-1])`, in element order. */
  function Tagged(k: string, items: seq<string>): (r: seq<Pair>)
    ensures |r| == |items|
  {
    if items == [] then [] else Tagged(k, items[..|items| - 1]) + [(k, items[|items| - 1])]
  }

  /** The pairs one entry contributes. */
  function Contribution(e: Entry): seq<Pair> {
    match e.1
    case Many(items) => Tagged(e.0, items)
    case One(item) => [(e.0, item)]
    case Missing => []
  }

  /** The pairs of the whole query: each entry's contribution, in entry
      order. */
  function QueryPairs(entries: seq<Entry>): seq<Pair> {
    if entries == [] then []
    else QueryPairs(entries[..|entries| - 1]) + Contribution(entries[|entries| - 1])
  }

  /** `URLSearchParams.getAll`: the values named `k`, in order. */
  function GetAll(qs: seq<Pair>, k: string): seq<string> {
    if qs == [] then []
    else GetAll(qs[..|qs| - 1], k) + (if qs[|qs| - 1].0 == k then [qs[|qs| - 1].1] else [])
  }

  /** What an entry's value says `getAll` should give. */
  function Values(v: ParamValue): seq<string> {
    match v
    case Many(items) => items
    case One(item) => [item]
    case Missing => []
  }

  /** `qs.toString()` as `name=value` pairs joined by `&`. */
  function Serialize(qs: seq<Pair>): (r: string)
    ensures r == "" <==> qs == []
  {
    if qs == [] then ""
    else if |qs| == 1 then qs[0].0 + "=" + qs[0].1
    else qs[0].0 + "=" + qs[0].1 + "&" + Serialize(qs[1..])
  }

  /** The path part of the first frame address: the frame prefix, a slash
      and the suffix, so only the slash when the suffix is empty. It is what
      docsToUrl makes of the public path `/docs/` + suffix, and of `/docs`
      alone when there is no suffix. */
  function FramePath(suffix: string): (r: string)
    ensures r == UrlPrefix + ("/" + suffix)
    ensures DocsToUrl(DocsPrefix + "/" + suffix) == Some(r)
    ensures suffix == "" ==> DocsToUrl(DocsPrefix) == Some(r)
  {
    RebaseSlash(DocsPrefix, UrlPrefix, "/" + suffix);
    assert DocsPrefix + "/" + suffix == DocsPrefix + ("/" + suffix);
    assert DocsPrefix[|DocsPrefix|..] == "";
    var r := UrlPrefix + (if suffix != "" then "/" + suffix else "/");
    assert r == UrlPrefix + ("/" + suffix);
    r
  }

  /** The query part: `?` and the serialised query, or nothing when the
      query is empty. */
  function QueryPart(qs: seq<Pair>): (r: string)
    ensures r == "" <==> qs == []
    ensures r != "" ==> r == "?" + Serialize(qs)
  {
    var q := Serialize(qs);
    if q != "" then "?" + q else ""
  }

  /** DocsProxy: the first address of the frame for a request with path
      segments `path` and query parameters `sp`. */
  method DocsProxy(path: Option<seq<string>>, sp: seq<Entry>) returns (target: string)
    requires DistinctKeys(sp)
    ensures target == FramePath(Suffix(path)) + QueryPart(QueryPairs(sp))
  {
    var suffix := Join(path.GetOr([]));
    var qs: seq<Pair> := [];
    for i := 0 to |sp|
      invariant qs == QueryPairs(sp[..i])
    {
      assert sp[..i + 1][..i] == sp[..i];
      var (k, v) := sp[i];
      match v {
        case Many(items) =>
          for j := 0 to |items|
            invariant qs == QueryPairs(sp[..i]) + Tagged(k, items[..j])
          {
            assert items[..j + 1][..j] == items[..j];
            qs := Append(qs, k, items[j]);
          }
          assert items[..|items|] == items;
        case One(item) =>
          NoEarlierKey(sp, i);
          qs := Set(qs, k, item);
        case Missing =>
      }
    }
    assert sp[..|sp|] == sp;
    var query := Serialize(qs);
    target := UrlPrefix + (if suffix != "" then "/" + suffix else "/")
                        + (if query != "" then "?" + query else "");
  }

  /** A key that no entry has names no pair of the query. */
  lemma {:induction false} AbsentKey(entries: seq<Entry>, k: string)
    requires forall j :: 0 <= j < |entries| ==> entries[j].0 != k
    ensures !HasKey(QueryPairs(entries), k)
    ensures GetAll(QueryPairs(entries), k) == []
  {
    if entries != [] {
      var init := entries[..|entries| - 1];
      var last := entries[|entries| - 1];
      AbsentKey(init, k);
      ContributionKeys(last);
      GetAllConcat(QueryPairs(init), Contribution(last), k);
      GetAllNoKey(Contribution(last), k);
    }
  }

  /** Every pair an entry contributes carries the entry's key. */
  lemma {:induction false} ContributionKeys(e: Entry)
    ensures forall i :: 0 <= i < |Contribution(e)| ==> Contribution(e)[i].0 == e.0
  {
    if e.1.Many? {
      TaggedKeys(e.0, e.1.items);
    }
  }

  lemma {:induction false} TaggedKeys(k: string, items: seq<string>)
    ensures forall i :: 0 <= i < |Tagged(k, items)| ==> Tagged(k, items)[i] == (k, items[i])
  {
    if items != [] {
      TaggedKeys(k, items[..|items| - 1]);
    }
  }

  lemma {:induction false} GetAllConcat(a: seq<Pair>, b: seq<Pair>, k: string)
    ensures GetAll(a + b, k) == GetAll(a, k) + GetAll(b, k)
  {
    if b != [] {
      assert (a + b)[..|a + b| - 1] == a + b[..|b| - 1];
      GetAllConcat(a, b[..|b| - 1], k);
    } else {
      assert a + b == a;
    }
  }

  lemma {:induction false} GetAllNoKey(qs: seq<Pair>, k: string)
    requires !HasKey(qs, k)
    ensures GetAll(qs, k) == []
  {
    if qs != [] {
      var init := qs[..|qs| - 1];
      assert !HasKey(init, k) by {
        forall i | 0 <= i < |init| ensures init[i].0 != k {
          assert init[i] == qs[i];
        }
      }
      GetAllNoKey(init, k);
    }
  }

  /** The pairs built before entry `i` never carry entry `i`'s key, so `set`
      on it appends. */
  lemma {:induction false} NoEarlierKey(sp: seq<Entry>, i: nat)
    requires DistinctKeys(sp) && i < |sp|
    ensures !HasKey(QueryPairs(sp[..i]), sp[i].0)
  {
    AbsentKey(sp[..i], sp[i].0);
  }

  /** `getAll` of an entry's key on the built query gives back exactly the
      entry's values: every element of an array in order, the one scalar,
      or nothing for a missing value. */
  lemma {:induction false} QueryValues(entries: seq<Entry>, j: nat)
    requires DistinctKeys(entries) && j < |entries|
    ensures GetAll(QueryPairs(entries), entries[j].0) == Values(entries[j].1)
  {
    var n := |entries|;
    var init := entries[..n - 1];
    if j == n - 1 {
      LastEntryValues(entries);
    } else {
      assert DistinctKeys(init);
      assert init[j] == entries[j];
      QueryValues(init, j);
      EarlierEntryValues(entries, j);
    }
  }

  /** The last entry's values are all that `getAll` finds under its key. */
  lemma LastEntryValues(entries: seq<Entry>)
    requires DistinctKeys(entries) && |entries| > 0
    ensures GetAll(QueryPairs(entries), entries[|entries| - 1].0) == Values(entries[|entries| - 1].1)
  {
    var init := entries[..|entries| - 1];
    var last := entries[|entries| - 1];
    assert QueryPairs(entries) == QueryPairs(init) + Contribution(last);
    GetAllConcat(QueryPairs(init), Contribution(last), last.0);
    assert forall j :: 0 <= j < |init| ==> init[j].0 != last.0 by {
      forall j | 0 <= j < |init| ensures init[j].0 != last.0 {
        assert init[j] == entries[j];
      }
    }
    AbsentKey(init, last.0);
    match last.1 {
      case Many(items) => GetAllTagged(last.0, items);
      case One(item) => assert GetAll([(last.0, item)], last.0) == GetAll([], last.0) + [item];
      case Missing =>
    }
  }

  /** The last entry adds nothing under an earlier entry's key. */
  lemma EarlierEntryValues(entries: seq<Entry>, j: nat)
    requires DistinctKeys(entries) && j < |entries| - 1
    ensures GetAll(QueryPairs(entries), entries[j].0) == GetAll(QueryPairs(entries[..|entries| - 1]), entries[j].0)
  {
    var init := entries[..|entries| - 1];
    var last := entries[|entries| - 1];
    GetAllConcat(QueryPairs(init), Contribution(last), entries[j].0);
    ContributionKeys(last);
    GetAllNoKey(Contribution(last), entries[j].0);
  }

  lemma {:induction false} GetAllTagged(k: string, items: seq<string>)
    ensures GetAll(Tagged(k, items), k) == items
  {
    if items != [] {
      GetAllTagged(k, items[..|items| - 1]);
      assert Tagged(k, items)[..|items| - 1] == Tagged(k, items[..|items| - 1]);
    }
  }

  /** A request for `/docs/guide/install?tab=2` starts the frame at
      `/url/gitbook.com/docs/guide/install?tab=2`. */
  lemma GuideInstallExample()
    ensures FramePath(Suffix(Some(["guide", "install"]))) + QueryPart(QueryPairs([("tab", One("2"))]))
         == UrlPrefix + ("/" + "guide/install") + ("?" + "tab=2")
  {
    var segments := ["guide", "install"];
    assert segments[1..] == ["install"];
    assert Suffix(Some(segments)) == "guide/install";
    var e: seq<Entry> := [("tab", One("2"))];
    assert e[..0] == [];
    assert QueryPairs(e) == [("tab", "2")];
    assert Serialize([("tab", "2")]) == "tab=2";
  }
}
