/**
 * The frame synchroniser of the documentation page
 * (packages/gitbook/src/app/docs/DocsFrame.tsx, lines 21-88).
 *
 * The page shows the proxied documentation in an embedded frame and keeps
 * the host's address bar and the frame's location in step with two
 * handlers: `syncFromIframe` mirrors the frame's location into the host's
 * history, and the host-to-frame effect re-points the frame when the host
 * address changes. Each handler runs to completion on the single event
 * loop, so each is one atomic step here: a function on a `SyncState`, and a
 * method of the class `DocsFrame` proved to perform exactly that step.
 */
module FrameSync {
  import opened Wrappers
  import opened Paths

  /** A location as the browser splits it: `pathname` and `search`, where
      `search` is empty or starts with `?`. */
  datatype Address = Address(path: string, search: string)

  /** The address string `pathname + search` the handlers compare and write. */
  function Href(a: Address): (r: string)
    ensures |r| == |a.path| + |a.search|
    ensures r[..|a.path|] == a.path && r[|a.path|..] == a.search
  {
    a.path + a.search
  }

  /** A location the browser can report: the path holds no `?` and the
      search is empty or starts with `?`. */
  ghost predicate WellFormed(a: Address) {
    && (forall i :: 0 <= i < |a.path| ==> a.path[i] != '?')
    && (a.search == "" || a.search[0] == '?')
  }

  /** What the host's query becomes in the strings the handlers build:
      `searchParams.toString()`, with `?` in front unless it is empty.
      `query` is the browser's `URLSearchParams` serialisation of the host's
      `search`, which parses the query and writes it out again. */
  function HostSearch(query: string -> string, s: string): (r: string)
    ensures r == "" || r[0] == '?'
    ensures r == "" <==> query(s) == ""
    ensures query(s) != "" ==> r == "?" + query(s)
  {
    if query(s) != "" then "?" + query(s) else ""
  }

  /** The serialisation gives the search back unchanged. `?a=1&b=2` does;
      `?a` (written back as `a=`) and `?q=a%20b` (written back as `q=a+b`)
      do not. */
  predicate Reproduces(query: string -> string, s: string) {
    HostSearch(query, s) == s
  }

  /** What the handlers find when they reach for the frame: no frame
      element yet (`iframeRef.current` is null), an element without a
      window (`contentWindow` is null), a window whose location cannot be
      accessed (the access throws), or a window whose location can be read
      and replaced. */
  datatype FrameWindow = NoElement | NoWindow | Throws | Loaded

  /** Everything the two handlers read or write: the host's address and
      session history, the frame's location and its own history, how the
      frame can be reached, and the frame element's `src` attribute. */
  datatype SyncState = SyncState(
    host: Address,
    hostHistory: seq<Address>,
    frame: Address,
    frameHistory: seq<Address>,
    window: FrameWindow,
    src: string)

  /** Both addresses are well formed and each is the current (last) entry
      of its history. */
  ghost predicate Consistent(v: SyncState) {
    && WellFormed(v.host) && WellFormed(v.frame)
    && v.hostHistory != [] && v.hostHistory[|v.hostHistory| - 1] == v.host
    && v.frameHistory != [] && v.frameHistory[|v.frameHistory| - 1] == v.frame
  }

  /** `location.replace`: the current history entry is overwritten. */
  function ReplaceLast(h: seq<Address>, a: Address): (r: seq<Address>)
    ensures |r| == if h == [] then 1 else |h|
    ensures r != [] && r[|r| - 1] == a
    ensures h != [] ==> r[..|r| - 1] == h[..|h| - 1]
  {
    if h == [] then [a] else h[..|h| - 1] + [a]
  }

  /** The address syncFromIframe wants the host to show: the frame's path
      translated to the public space, with the frame's own search. */
  function HostTarget(v: SyncState): (r: Option<Address>)
    ensures r.None? <==> !(UrlPrefix <= v.frame.path)
    ensures r.Some? ==> DocsPrefix + "/" <= r.value.path && r.value.search == v.frame.search
  {
    match UrlToDocs(v.frame.path)
    case None => None
    case Some(docsPath) => Some(Address(docsPath, v.frame.search))
  }

  /** The address the host-to-frame effect wants the frame to show: the
      host's path translated to the frame space, with the host's query as
      the serialisation writes it. */
  function FrameTarget(v: SyncState, query: string -> string): (r: Option<Address>)
    ensures r.None? <==> !(DocsPrefix <= v.host.path)
    ensures r.Some? ==> UrlPrefix + "/" <= r.value.path && r.value.search == HostSearch(query, v.host.search)
  {
    match DocsToUrl(v.host.path)
    case None => None
    case Some(urlPath) => Some(Address(urlPath, HostSearch(query, v.host.search)))
  }

  /** Frame to host (syncFromIframe). Nothing happens unless the frame's
      location can be read and translated; then a history entry is pushed
      when, and only when, the translated address differs from the host's
      path followed by its serialised query. */
  function FrameToHost(v: SyncState, query: string -> string): (r: SyncState)
    ensures r.frame == v.frame && r.frameHistory == v.frameHistory
    ensures r.window == v.window && r.src == v.src
    ensures r.hostHistory == v.hostHistory || r.hostHistory == v.hostHistory + [r.host]
    ensures r.host != v.host ==> r.hostHistory == v.hostHistory + [r.host]
  {
    if v.window != Loaded then v
    else match HostTarget(v)
      case None => v
      case Some(next) =>
        if Href(next) != v.host.path + HostSearch(query, v.host.search) then
          v.(host := next, hostHistory := v.hostHistory + [next])
        else v
  }

  /** Host to frame (the second effect). Nothing happens without a frame
      element or when the host path cannot be translated. Without a window,
      or when its location cannot be accessed, the frame's `src` is set to
      the wanted address; otherwise the frame's location is replaced when,
      and only when, it differs from the wanted address. */
  function HostToFrame(v: SyncState, query: string -> string): (r: SyncState)
    ensures r.host == v.host && r.hostHistory == v.hostHistory && r.window == v.window
    ensures v.frameHistory != [] ==> |r.frameHistory| == |v.frameHistory|
    ensures r.frame != v.frame ==> r.frameHistory == ReplaceLast(v.frameHistory, r.frame)
  {
    if v.window == NoElement then v
    else match FrameTarget(v, query)
      case None => v
      case Some(desired) =>
        if v.window != Loaded then v.(src := Href(desired))
        else if Href(v.frame) != Href(desired) then
          v.(frame := desired, frameHistory := ReplaceLast(v.frameHistory, desired))
        else v
  }

  /** A path translated from a path without `?` has no `?` either. */
  lemma {:induction false} RebaseKeepsNoQuery(from: string, to: string, p: string)
    requires from <= p
    requires forall i :: 0 <= i < |to| ==> to[i] != '?'
    requires forall i :: 0 <= i < |p| ==> p[i] != '?'
    ensures forall i :: 0 <= i < |Rebase(from, to, p).value| ==> Rebase(from, to, p).value[i] != '?'
  {
    var rest := p[|from|..];
    var r := Rebase(from, to, p).value;
    forall i | 0 <= i < |r| ensures r[i] != '?' {
      if i >= |to| {
        if r == to + rest {
          assert r[i] == p[|from| + i - |to|];
        } else {
          assert r == to + "/" + rest;
          if i > |to| { assert r[i] == p[|from| + i - |to| - 1]; }
        }
      }
    }
  }

  /** Frame to host keeps the state consistent. */
  lemma {:induction false} FrameToHostConsistent(v: SyncState, query: string -> string)
    requires Consistent(v)
    ensures Consistent(FrameToHost(v, query))
  {
    if v.window == Loaded && UrlPrefix <= v.frame.path {
      RebaseKeepsNoQuery(UrlPrefix, DocsPrefix, v.frame.path);
      var next := HostTarget(v).value;
      assert WellFormed(next);
    }
  }

  /** Host to frame keeps the state consistent. */
  lemma {:induction false} HostToFrameConsistent(v: SyncState, query: string -> string)
    requires Consistent(v)
    ensures Consistent(HostToFrame(v, query))
  {
    if v.window == Loaded && DocsPrefix <= v.host.path {
      RebaseKeepsNoQuery(DocsPrefix, UrlPrefix, v.host.path);
      var desired := FrameTarget(v, query).value;
      assert WellFormed(desired);
    }
  }

  /** On well-formed addresses the address string determines the address:
      the first `?` separates path from search. */
  lemma {:induction false} HrefInjective(a: Address, b: Address)
    requires WellFormed(a) && WellFormed(b)
    ensures Href(a) == Href(b) <==> a == b
  {
    if Href(a) == Href(b) {
      assert a.path == Href(a)[..|a.path|];
      assert b.path == Href(b)[..|b.path|];
    }
  }

  /** The host's address as the handlers see it: its path, and its query
      as the serialisation writes it. */
  function SeenHost(v: SyncState, query: string -> string): (r: Address)
    ensures WellFormed(v.host) ==> WellFormed(r)
    ensures Reproduces(query, v.host.search) ==> r == v.host
  {
    Address(v.host.path, HostSearch(query, v.host.search))
  }

  /** Frame to host writes nothing when the frame cannot be reached, when
      its location cannot be read, or when its path is not under
      `/url/gitbook.com/docs`. */
  lemma FrameToHostNoWrite(v: SyncState, query: string -> string)
    requires v.window != Loaded || !(UrlPrefix <= v.frame.path)
    ensures FrameToHost(v, query) == v
  {
  }

  /** Frame to host writes exactly when the translated frame address differs
      from the host's address as the handler sees it, and the write appends
      one history entry, which is that address and becomes the host's. */
  lemma {:induction false} FrameToHostWrites(v: SyncState, query: string -> string)
    requires Consistent(v) && v.window == Loaded && UrlPrefix <= v.frame.path
    ensures var next := Address(UrlToDocs(v.frame.path).value, v.frame.search);
      && (FrameToHost(v, query) != v <==> next != SeenHost(v, query))
      && (FrameToHost(v, query) != v ==>
            FrameToHost(v, query).host == next
            && FrameToHost(v, query).hostHistory == v.hostHistory + [next])
  {
    var next := Address(UrlToDocs(v.frame.path).value, v.frame.search);
    RebaseKeepsNoQuery(UrlPrefix, DocsPrefix, v.frame.path);
    HrefInjective(next, SeenHost(v, query));
    if next != SeenHost(v, query) {
      assert |FrameToHost(v, query).hostHistory| == |v.hostHistory| + 1;
    }
  }

  /** A second run of frame to host, with the frame where it was, writes
      nothing, provided the serialisation gives the frame's search back. */
  lemma {:induction false} FrameToHostIdempotent(v: SyncState, query: string -> string)
    requires Reproduces(query, v.frame.search)
    ensures FrameToHost(FrameToHost(v, query), query) == FrameToHost(v, query)
  {
  }

  /** When the serialisation does not give the search back, a host already
      showing the frame's address pushes that address again on every run of
      frame to host: each load event of the frame adds a duplicate entry. */
  lemma {:induction false} RepeatedPush(v: SyncState, query: string -> string)
    requires v.window == Loaded && HostTarget(v) == Some(v.host)
    requires !Reproduces(query, v.host.search)
    ensures FrameToHost(v, query) == v.(hostHistory := v.hostHistory + [v.host])
  {
    assert Href(v.host) != v.host.path + HostSearch(query, v.host.search);
  }

  /** Host to frame touches nothing when there is no frame element or the
      host path is not under `/docs`. */
  lemma HostToFrameNoOp(v: SyncState, query: string -> string)
    requires v.window == NoElement || !(DocsPrefix <= v.host.path)
    ensures HostToFrame(v, query) == v
  {
  }

  /** Without a window, or when its location cannot be accessed, host to
      frame sets `src` to the wanted address and changes nothing else. */
  lemma HostToFrameFallback(v: SyncState, query: string -> string)
    requires v.window == NoWindow || v.window == Throws
    requires DocsPrefix <= v.host.path
    ensures HostToFrame(v, query)
         == v.(src := DocsToUrl(v.host.path).value + HostSearch(query, v.host.search))
  {
  }

  /** With a reachable window, host to frame replaces the frame's location
      exactly when it differs from the wanted address; the frame's history
      keeps its length and the `src` attribute is left alone. */
  lemma {:induction false} HostToFrameReplaces(v: SyncState, query: string -> string)
    requires Consistent(v) && v.window == Loaded && DocsPrefix <= v.host.path
    ensures var desired := Address(DocsToUrl(v.host.path).value, HostSearch(query, v.host.search));
      && (HostToFrame(v, query) != v <==> v.frame != desired)
      && HostToFrame(v, query).frame == desired
      && |HostToFrame(v, query).frameHistory| == |v.frameHistory|
      && HostToFrame(v, query).src == v.src
  {
    var desired := Address(DocsToUrl(v.host.path).value, HostSearch(query, v.host.search));
    RebaseKeepsNoQuery(DocsPrefix, UrlPrefix, v.host.path);
    HrefInjective(v.frame, desired);
  }

  /** Running host to frame a second time with the host where it was
      leaves the recorded state as the first run left it. In the fallback
      branch the second run assigns the same `src` again, which the state
      does not record. */
  lemma {:induction false} HostToFrameIdempotent(v: SyncState, query: string -> string)
    ensures HostToFrame(HostToFrame(v, query), query) == HostToFrame(v, query)
  {
  }

  /** Loop freedom, frame first: once frame to host has run on a frame at
      `/url/gitbook.com/docs` + s (s starting with `/`), the host is at
      `/docs` + s with a query that serialises to the frame's search, and
      the host effect then issues no navigation. This needs the
      serialisation to give the frame's search back. */
  lemma {:induction false} NoLoopFromFrame(v: SyncState, s: string, query: string -> string)
    requires Consistent(v) && v.window == Loaded
    requires s != "" && s[0] == '/' && v.frame.path == UrlPrefix + s
    requires Reproduces(query, v.frame.search)
    ensures FrameToHost(v, query).host.path == DocsPrefix + s
    ensures HostSearch(query, FrameToHost(v, query).host.search) == v.frame.search
    ensures HostToFrame(FrameToHost(v, query), query) == FrameToHost(v, query)
  {
    RoundTrip(s);
    var next := Address(DocsPrefix + s, v.frame.search);
    assert HostTarget(v) == Some(next);
    FrameToHostWrites(v, query);
    var w := FrameToHost(v, query);
    assert SeenHost(w, query) == next;
    assert FrameTarget(w, query) == Some(v.frame);
  }

  /** Loop freedom, host first: once host to frame has re-pointed the frame
      for a host at `/docs` + s (s starting with `/`), the frame sits at
      `/url/gitbook.com/docs` + s with the host's serialised query, and the
      frame's load event writes nothing to the host history. */
  lemma {:induction false} NoLoopFromHost(v: SyncState, s: string, query: string -> string)
    requires Consistent(v) && v.window == Loaded
    requires s != "" && s[0] == '/' && v.host.path == DocsPrefix + s
    ensures HostToFrame(v, query).frame == Address(UrlPrefix + s, HostSearch(query, v.host.search))
    ensures FrameToHost(HostToFrame(v, query), query) == HostToFrame(v, query)
  {
    RoundTrip(s);
    HostToFrameReplaces(v, query);
    var w := HostToFrame(v, query);
    assert HostTarget(w) == Some(SeenHost(v, query));
  }

  /** A frame still showing another page than the host, as after a
      back/forward step of the host: frame to host pushes the frame's page,
      the old one, onto the host history. */
  lemma {:induction false} StaleFramePushedBack(v: SyncState, s: string, query: string -> string)
    requires Consistent(v) && v.window == Loaded
    requires s != "" && s[0] == '/' && v.frame.path == UrlPrefix + s
    requires v.host.path != DocsPrefix + s
    ensures FrameToHost(v, query).host == Address(DocsPrefix + s, v.frame.search)
    ensures FrameToHost(v, query).hostHistory == v.hostHistory + [Address(DocsPrefix + s, v.frame.search)]
  {
    RoundTrip(s);
    assert HostTarget(v) == Some(Address(DocsPrefix + s, v.frame.search));
    FrameToHostWrites(v, query);
  }

  /** A frame path whose remainder is empty or lacks a leading `/` (such as
      `/url/gitbook.com/docsfoo`) is not a fixed point: after mirroring it
      into the host, the host effect re-points the frame once, to the
      normalised path, and from there frame to host writes nothing more. */
  lemma {:induction false} NormalisingRedirect(v: SyncState, rest: string, query: string -> string)
    requires Consistent(v) && v.window == Loaded
    requires v.frame.path == UrlPrefix + rest && !(rest != "" && rest[0] == '/')
    requires Reproduces(query, v.frame.search)
    ensures var w := HostToFrame(FrameToHost(v, query), query);
      && w.frame == Address(UrlPrefix + Normalize(rest), v.frame.search)
      && w.frame != v.frame
      && FrameToHost(w, query) == w
  {
    assert v.frame.path[|UrlPrefix|..] == rest;
    var s := Normalize(rest);
    var next := Address(DocsPrefix + s, v.frame.search);
    assert HostTarget(v) == Some(next);
    FrameToHostWrites(v, query);
    FrameToHostConsistent(v, query);
    var u := FrameToHost(v, query);
    assert SeenHost(u, query) == next;
    NoLoopFromHost(u, s, query);
    assert |UrlPrefix + s| != |v.frame.path|;
  }

  /**
   * The documentation frame component with the state its two handlers
   * read and write. `window` says how far the frame element can be
   * reached; `src` is the element's `src` attribute.
   */
  class DocsFrame {
    var host: Address
    var hostHistory: seq<Address>
    var frame: Address
    var frameHistory: seq<Address>
    var window: FrameWindow
    var src: string

    /** The abstract state the specification functions work on. */
    ghost function State(): SyncState
      reads this
    {
      SyncState(host, hostHistory, frame, frameHistory, window, src)
    }

    ghost predicate Valid()
      reads this
    {
      Consistent(State())
    }

    /** Mounting the frame: the host shows its own address, and the frame
        element starts at `initialSrc` (the address DocsProxy assembles). */
    constructor (host: Address, initialSrc: Address, window: FrameWindow)
      requires WellFormed(host) && WellFormed(initialSrc)
      ensures Valid()
      ensures State() == SyncState(host, [host], initialSrc, [initialSrc], window, Href(initialSrc))
    {
      this.host := host;
      this.hostHistory := [host];
      this.frame := initialSrc;
      this.frameHistory := [initialSrc];
      this.window := window;
      this.src := Href(initialSrc);
    }

    /** syncFromIframe: mirror the frame's location into the host's
        history with a push. `query` serialises the host's query, as
        `searchParams.toString()` does. */
    method SyncFromIframe(query: string -> string)
      requires Valid()
      modifies this
      ensures Valid()
      ensures State() == FrameToHost(old(State()), query)
    {
      FrameToHostConsistent(State(), query);
      if window == NoElement || window == NoWindow {
        return;
      }
      if window == Throws {
        // the access to the frame's location throws; the handler swallows it
        return;
      }
      var docsPath := UrlToDocs(frame.path);
      if docsPath.None? {
        return;
      }
      var qs := query(host.search);
      var current := host.path + (if qs != "" then "?" + qs else "");
      var next := docsPath.value + frame.search;
      if next != current {
        var entry := Address(docsPath.value, frame.search);
        hostHistory := hostHistory + [entry];
        host := entry;
      }
    }

    /** The host-to-frame effect: re-point the frame at the translation of
        the host's address, by replacing its location, or by setting `src`
        when its window is missing or cannot be accessed. */
    method SyncToIframe(query: string -> string)
      requires Valid()
      modifies this
      ensures Valid()
      ensures State() == HostToFrame(old(State()), query)
    {
      HostToFrameConsistent(State(), query);
      if window == NoElement {
        return;
      }
      var desiredUrlPath := DocsToUrl(host.path);
      if desiredUrlPath.None? {
        return;
      }
      var qs := query(host.search);
      var search := if qs != "" then "?" + qs else "";
      var desired := desiredUrlPath.value + search;
      if window == NoWindow {
        src := desired;
        return;
      }
      if window == Throws {
        // reading the frame's location throws; the handler falls back to src
        src := desired;
        return;
      }
      var current := frame.path + frame.search;
      if current != desired {
        var target := Address(desiredUrlPath.value, search);
        frameHistory := ReplaceLast(frameHistory, target);
        frame := target;
      }
    }
  }
}
