/**
 * The path translator of the documentation frame
 * (packages/gitbook/src/app/docs/DocsFrame.tsx, urlToDocs and docsToUrl).
 *
 * The public documentation lives under `/docs`; the embedded frame loads the
 * same pages under `/url/gitbook.com/docs`, which a reverse proxy forwards to
 * the upstream site. Both translators strip one prefix and put the other in
 * its place, normalising the remainder so that it always starts with `/`.
 */
module Paths {
  import opened Wrappers

  /** Prefix of every public documentation path. */
  const DocsPrefix: string := "/docs"

  /** Prefix under which the frame loads the proxied documentation. */
  const UrlPrefix: string := "/url/gitbook.com/docs"

  /** The remainder after a prefix, normalised the way both translators do:
      an empty remainder becomes `/`, and one that does not start with `/`
      gets a `/` put in front of it. */
  function Normalize(rest: string): (r: string)
    ensures |r| > 0 && r[0] == '/'
    ensures r == rest <==> (rest != "" && rest[0] == '/')
    ensures r == rest || r == "/" + rest
  {
    if rest == "" then "/" else if rest[0] == '/' then rest else "/" + rest
  }

  /** Replaces the prefix `from` of `p` by `to`, or gives None when `p` does
      not start with `from`; the common shape of urlToDocs and docsToUrl. */
  function Rebase(from: string, to: string, p: string): (r: Option<string>)
    ensures r.None? <==> !(from <= p)
    ensures r.Some? ==> to + "/" <= r.value
    ensures r.Some? ==> r.value == to + p[|from|..] || r.value == to + "/" + p[|from|..]
  {
    if !(from <= p) then None
    else
      var rest := Normalize(p[|from|..]);
      assert (to + rest)[..|to| + 1] == to + "/";
      Some(to + rest)
  }

  /** urlToDocs: a frame path under `/url/gitbook.com/docs` to the public
      path under `/docs/`; None for any other path. */
  function UrlToDocs(p: string): (r: Option<string>)
    ensures r.None? <==> !(UrlPrefix <= p)
    ensures r.Some? ==> DocsPrefix + "/" <= r.value
  {
    Rebase(UrlPrefix, DocsPrefix, p)
  }

  /** docsToUrl: a public path under `/docs` to the frame path under
      `/url/gitbook.com/docs/`; None for any other path. */
  function DocsToUrl(p: string): (r: Option<string>)
    ensures r.None? <==> !(DocsPrefix <= p)
    ensures r.Some? ==> UrlPrefix + "/" <= r.value
  {
    Rebase(DocsPrefix, UrlPrefix, p)
  }

  /** Rebasing `from + s` onto `to` keeps `s` unchanged when `s` already
      starts with `/`. */
  lemma {:induction false} RebaseSlash(from: string, to: string, s: string)
    requires s != "" && s[0] == '/'
    ensures Rebase(from, to, from + s) == Some(to + s)
  {
    assert (from + s)[|from|..] == s;
  }

  /** The two translators undo each other on every suffix that starts with
      `/`, in both directions. */
  lemma {:induction false} RoundTrip(s: string)
    requires s != "" && s[0] == '/'
    ensures UrlToDocs(UrlPrefix + s) == Some(DocsPrefix + s)
    ensures DocsToUrl(DocsPrefix + s) == Some(UrlPrefix + s)
    ensures DocsToUrl(UrlToDocs(UrlPrefix + s).value) == Some(UrlPrefix + s)
    ensures UrlToDocs(DocsToUrl(DocsPrefix + s).value) == Some(DocsPrefix + s)
  {
    RebaseSlash(UrlPrefix, DocsPrefix, s);
    RebaseSlash(DocsPrefix, UrlPrefix, s);
  }

  /** The round trip `to` and back restores `p` exactly when the remainder
      after the prefix starts with `/`; an empty remainder or one without a
      leading `/` comes back with a `/` inserted. */
  lemma {:induction false} RoundTripExactly(from: string, to: string, p: string)
    requires from <= p
    ensures Rebase(to, from, Rebase(from, to, p).value) == Some(p)
        <==> (p[|from|..] != "" && p[|from|..][0] == '/')
  {
    var rest := p[|from|..];
    assert p == from + rest;
    var q := to + Normalize(rest);
    RebaseSlash(to, from, Normalize(rest));
    assert Rebase(to, from, q) == Some(from + Normalize(rest));
    if !(rest != "" && rest[0] == '/') {
      assert |Normalize(rest)| != |rest|;
      assert |from + Normalize(rest)| != |p|;
    }
  }

  /** A translated path is in normal form: translating it there and back
      gives it again, so translation followed by its inverse settles after
      one step. */
  lemma {:induction false} TranslationSettles(p: string)
    ensures UrlToDocs(p).Some? ==>
      UrlToDocs(DocsToUrl(UrlToDocs(p).value).value) == UrlToDocs(p)
    ensures DocsToUrl(p).Some? ==>
      DocsToUrl(UrlToDocs(DocsToUrl(p).value).value) == DocsToUrl(p)
  {
    if UrlPrefix <= p {
      var s := Normalize(p[|UrlPrefix|..]);
      RoundTrip(s);
    }
    if DocsPrefix <= p {
      var s := Normalize(p[|DocsPrefix|..]);
      RoundTrip(s);
    }
  }

  /** The empty remainder normalises to `/` in both directions, and a
      remainder without a leading `/` gets one: `/docsfoo` becomes
      `/url/gitbook.com/docs/foo`, which translates back to `/docs/foo`. */
  lemma EdgeCases()
    ensures UrlToDocs(UrlPrefix) == Some("/docs/")
    ensures UrlToDocs(UrlPrefix + "/") == Some("/docs/")
    ensures DocsToUrl(DocsPrefix) == Some("/url/gitbook.com/docs/")
    ensures DocsToUrl("/docsfoo") == Some("/url/gitbook.com/docs/foo")
    ensures UrlToDocs("/url/gitbook.com/docs/foo") == Some("/docs/foo")
    ensures DocsToUrl("/other-app/page") == None
  {
    assert UrlPrefix[|UrlPrefix|..] == "" && Normalize("") == "/";
    assert DocsPrefix + "/" == "/docs/";
    assert DocsPrefix[|DocsPrefix|..] == "";
    assert UrlPrefix + "/" == "/url/gitbook.com/docs/";
    assert DocsPrefix <= "/docsfoo" && "/docsfoo"[|DocsPrefix|..] == "foo";
    assert Normalize("foo") == "/foo";
    assert UrlPrefix + "/foo" == "/url/gitbook.com/docs/foo";
    assert UrlPrefix <= "/url/gitbook.com/docs/foo";
    assert "/url/gitbook.com/docs/foo"[|UrlPrefix|..] == "/foo";
    assert DocsPrefix + "/foo" == "/docs/foo";
    assert (UrlPrefix + "/")[|UrlPrefix|..] == "/";
    assert "/other-app/page"[1] != DocsPrefix[1];
  }
}
