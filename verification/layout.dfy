/** The root layout's decision whether to render the site header: it is
    hidden on the admin and sign-in/sign-up routes, decided by a plain
    prefix test on the current pathname. */
module Layout {
  import opened Seqs
  import Strings

  /** The route prefixes under which the header is hidden. */
  const HiddenPrefixes: seq<string> := ["/admin", "/sign-in", "/sign-up"]

  /** `pathname` starts with one of the hidden prefixes, compared as
      slices rather than character by character. */
  predicate UnderHiddenPrefix(path: string) {
    exists k | 0 <= k < |HiddenPrefixes| ::
      |HiddenPrefixes[k]| <= |path| && path[..|HiddenPrefixes[k]|] == HiddenPrefixes[k]
  }

  /** `isAdminPage`: a chain of optional-chained `startsWith` tests joined
      by `||`. A null pathname makes every test `undefined`, which is
      falsy. */
  function IsAdminPage(pathname: Option<string>): (hidden: bool)
    ensures hidden <==> pathname.Some? && UnderHiddenPrefix(pathname.value)
  {
    match pathname
    case None => false
    case Some(path) =>
      Strings.StartsWithIsSlice(path, "/admin");
      Strings.StartsWithIsSlice(path, "/sign-in");
      Strings.StartsWithIsSlice(path, "/sign-up");
      assert UnderHiddenPrefix(path) <==>
        || (|HiddenPrefixes[0]| <= |path| && path[..|HiddenPrefixes[0]|] == HiddenPrefixes[0])
        || (|HiddenPrefixes[1]| <= |path| && path[..|HiddenPrefixes[1]|] == HiddenPrefixes[1])
        || (|HiddenPrefixes[2]| <= |path| && path[..|HiddenPrefixes[2]|] == HiddenPrefixes[2]);
      || Strings.StartsWith(path, "/admin")
      || Strings.StartsWith(path, "/sign-in")
      || Strings.StartsWith(path, "/sign-up")
  }

  /** `{!isAdminPage && <Header />}`. */
  function ShowsHeader(pathname: Option<string>): (shown: bool)
    ensures shown <==> pathname.None? || !UnderHiddenPrefix(pathname.value)
  {
    !IsAdminPage(pathname)
  }

  /** Hiding is closed under extension: anything below a hidden path, or
      merely sharing its spelling as a prefix, is hidden too. */
  lemma HiddenIsPrefixClosed(path: string, more: string)
    requires IsAdminPage(Some(path))
    ensures IsAdminPage(Some(path + more))
  {
    var k :| 0 <= k < |HiddenPrefixes| &&
      |HiddenPrefixes[k]| <= |path| && path[..|HiddenPrefixes[k]|] == HiddenPrefixes[k];
    assert (path + more)[..|HiddenPrefixes[k]|] == path[..|HiddenPrefixes[k]|];
  }

  /** The prefix test is not a segment test: `/administrator` hides the
      header just like `/admin/settings`. */
  lemma AdministratorIsHidden()
    ensures IsAdminPage(Some("/administrator"))
    ensures IsAdminPage(Some("/admin/settings"))
  {
    assert "/administrator"[..6] == HiddenPrefixes[0];
    assert "/admin/settings"[..6] == HiddenPrefixes[0];
  }

  /** The gallery root and a missing pathname show the header. */
  lemma RootShowsHeader()
    ensures ShowsHeader(Some("/"))
    ensures ShowsHeader(None)
  {
  }
}
