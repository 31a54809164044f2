/**
 The `MDXLink` component of the documentation site: it classifies the `href`
 of a link found in authored content as internal or external, normalises the
 internal shapes (path with a fragment, same-page fragment), and builds the
 target handed to the site's client-side navigation or to the outbound-link
 renderer.

 The two framework hooks become parameters: `baseURI` is what
 `usePathWithoutHash()` returns (the current page's path without its
 fragment) and `platform` is what `useCurrentPlatform()` returns.
 */
module MDXComponents {
  import opened Wrappers
  import opened Strings

  /** The token that stands for the current platform in a platform-independent path. */
  const PlatformPlaceholder: string := "[platform]"

  /** A link is internal when its href is non-empty and begins with `/` or `#`. */
  predicate IsInternal(href: string) {
    href != [] && (StartsWith(href, "/") || StartsWith(href, "#"))
  }

  /** Guard of the first rewrite: an absolute path that carries a fragment. */
  predicate HasPathAndFragment(href: string)
    ensures HasPathAndFragment(href) <==> |href| > 0 && href[0] == '/' && '#' in href
  {
    StartsWithChar(href, '/');
    ContainsChar(href, '#');
    StartsWith(href, "/") && Contains(href, "#")
  }

  /** Guard of the second rewrite: a bare fragment that names no path. */
  predicate IsSamePageFragment(href: string)
    ensures IsSamePageFragment(href) <==> |href| > 0 && href[0] == '#' && '/' !in href
  {
    StartsWithChar(href, '#');
    ContainsChar(href, '/');
    !Contains(href, "/") && StartsWith(href, "#")
  }

  /**
   Splits `href` at its first `#` into the path before it and the fragment
   from it on. The three ensures determine the pair uniquely (see
   SplitAtFragmentUnique).
   */
  function SplitAtFragment(href: string): (r: (string, string))
    requires Contains(href, "#")
    ensures r.0 + r.1 == href
    ensures !Contains(r.0, "#")
    ensures StartsWith(r.1, "#")
  {
    var i := IndexOf(href, "#");
    var path := href[..i];
    assert href[i..][..1] == "#";
    assert !Contains(path, "#") by {
      forall j | IsAt(path, "#", j) ensures IsAt(href, "#", j) && j < i {
        OccurrenceInPrefix(href, "#", i, j);
      }
    }
    (path, href[i..])
  }

  /** The href and hash after the component's two rewrites. */
  datatype Rewritten = Rewritten(href: string, hash: Option<string>)

  /**
   The two rewrites, applied in order to the href and hash received in the
   component's props. The first splits `/path#frag` into a path and a
   fragment; the second turns a bare `#frag` into a link to the current page,
   with the platform's first occurrence in that page's path replaced by the
   placeholder. Each ensures states one case in terms of the original href.
   */
  function Rewrite(href: string, hash: Option<string>, baseURI: string, platform: string): (r: Rewritten)
    ensures HasPathAndFragment(href) ==>
              r.hash.Some? && r.href + r.hash.value == href
              && !Contains(r.href, "#") && StartsWith(r.hash.value, "#")
              && StartsWith(r.href, "/")
    ensures IsSamePageFragment(href) ==>
              r.hash == Some(href) && r.href == ReplaceFirst(baseURI, platform, PlatformPlaceholder)
    ensures !HasPathAndFragment(href) && !IsSamePageFragment(href) ==> r == Rewritten(href, hash)
  {
    var afterSplit :=
      if HasPathAndFragment(href) then
        var (path, fragment) := SplitAtFragment(href);
        SplitKeepsLeadingSlash(href);
        SplitDisablesSamePage(href);
        Rewritten(path, Some(fragment))
      else
        Rewritten(href, hash);
    if IsSamePageFragment(afterSplit.href) then
      Rewritten(ReplaceFirst(baseURI, platform, PlatformPlaceholder), Some(afterSplit.href))
    else
      afterSplit
  }

  /** The target the component renders: a client-side navigation for an
      internal link, a plain outbound link otherwise. */
  datatype Target =
    | Internal(pathname: string, query: Option<string>, fragment: Option<string>)
    | External(href: string)

  /**
   The component: classifies the original href, applies the rewrites, and
   builds the target. An internal target carries a `platform` query exactly
   when a platform is known, and its fragment is the rewritten hash; an
   external target keeps the href exactly as it was written.
   */
  function MDXLink(href: string, hash: Option<string>, baseURI: string, platform: string): (t: Target)
    ensures t.External? <==> !IsInternal(href)
    ensures t.External? ==> t.href == href
    ensures t.Internal? ==> (t.query.Some? <==> platform != []) && (t.query.Some? ==> t.query.value == platform)
    ensures t.Internal? && HasPathAndFragment(href) ==>
              t.fragment.Some? && t.pathname + t.fragment.value == href
              && !Contains(t.pathname, "#") && StartsWith(t.fragment.value, "#")
    ensures t.Internal? && IsSamePageFragment(href) ==>
              t.fragment == Some(href) && t.pathname == ReplaceFirst(baseURI, platform, PlatformPlaceholder)
    ensures t.Internal? && !HasPathAndFragment(href) && !IsSamePageFragment(href) ==>
              t.pathname == href && t.fragment == hash
  {
    var isInternal := IsInternal(href);
    var r := Rewrite(href, hash, baseURI, platform);
    if isInternal then
      Internal(r.href, if platform != [] then Some(platform) else None, r.hash)
    else
      ExternalKeepsHref(href, hash, baseURI, platform);
      External(r.href)
  }

  /** Classification looks only at the first character of the href. */
  lemma IsInternalFirstChar(href: string)
    ensures IsInternal(href) <==> |href| > 0 && (href[0] == '/' || href[0] == '#')
  {
    if |href| > 0 {
      assert href[..1] == [href[0]];
    }
  }

  /** The split is the only way to write href as a `#`-free path followed by a
      fragment that begins with `#`. */
  lemma SplitAtFragmentUnique(href: string, path: string, fragment: string)
    requires path + fragment == href
    requires !Contains(path, "#")
    requires StartsWith(fragment, "#")
    ensures Contains(href, "#") && SplitAtFragment(href) == (path, fragment)
  {
    var i := |path|;
    assert IsAt(href, "#", i) by {
      assert href[i..i + 1] == fragment[..1];
    }
    forall j | 0 <= j < i ensures IsAt(href, "#", j) == IsAt(path, "#", j) {
      assert href[j..j + 1] == path[j..j + 1];
    }
    var k := IndexOf(href, "#");
    FirstOccurrenceUnique(href, "#", i, k);
    assert href[..i] == path && href[i..] == fragment;
  }

  /** The path that the split leaves still begins with `/`, so it is still internal. */
  lemma SplitKeepsLeadingSlash(href: string)
    requires HasPathAndFragment(href)
    ensures StartsWith(SplitAtFragment(href).0, "/")
    ensures IsInternal(SplitAtFragment(href).0)
  {
    var (p, f) := SplitAtFragment(href);
    assert !IsAt(href, "#", 0);
    assert IsAt(href, "#", |p|) by {
      assert href[|p|..|p| + 1] == f[..1];
    }
    assert href[0] == '/' by { assert href[..1][0] == href[0]; }
    assert p[0] == href[0];
    assert p[..1] == "/";
  }

  /** The two rewrites exclude each other: once the first has fired, the href
      begins with `/`, so it contains `/` and the second cannot fire. */
  lemma SplitDisablesSamePage(href: string)
    requires HasPathAndFragment(href)
    ensures !IsSamePageFragment(SplitAtFragment(href).0)
  {
    SplitKeepsLeadingSlash(href);
    assert IsAt(SplitAtFragment(href).0, "/", 0);
  }

  /** No href satisfies both guards. */
  lemma GuardsDisjoint(href: string)
    ensures !(HasPathAndFragment(href) && IsSamePageFragment(href))
  {
    if StartsWith(href, "/") {
      assert IsAt(href, "/", 0);
    }
  }

  /** An external href is rewritten by neither rewrite, and the hash passes through. */
  lemma ExternalKeepsHref(href: string, hash: Option<string>, baseURI: string, platform: string)
    requires !IsInternal(href)
    ensures Rewrite(href, hash, baseURI, platform) == Rewritten(href, hash)
  {
  }

  /**
   Classifying the rewritten href gives internal again, provided that a
   same-page link is resolved against a path that begins with `/` and a
   non-empty platform that does not itself begin with `/`.
   */
  lemma RewriteStaysInternal(href: string, hash: Option<string>, baseURI: string, platform: string)
    requires IsInternal(href)
    requires IsSamePageFragment(href) ==> StartsWith(baseURI, "/") && platform != [] && platform[0] != '/'
    ensures IsInternal(Rewrite(href, hash, baseURI, platform).href)
  {
    if IsSamePageFragment(href) {
      ReplaceFirstKeepsHead(baseURI, platform, PlatformPlaceholder, '/');
    }
  }

  /** With an empty platform the placeholder is put in front of the page path,
      and the resulting href is no longer internal. */
  lemma EmptyPlatformPrependsPlaceholder(href: string, hash: Option<string>, baseURI: string)
    requires IsSamePageFragment(href)
    ensures Rewrite(href, hash, baseURI, []).href == PlatformPlaceholder + baseURI
    ensures !IsInternal(Rewrite(href, hash, baseURI, []).href)
  {
    ReplaceFirstEmptyPattern(baseURI, PlatformPlaceholder);
    var r := PlatformPlaceholder + baseURI;
    assert r[0] == '[';
    assert r[..1] == "[";
  }

  /** A same-page link on a page whose path does not mention the platform keeps that path. */
  lemma SamePageWithoutPlatformInPath(href: string, hash: Option<string>, baseURI: string, platform: string)
    requires IsSamePageFragment(href)
    requires !Contains(baseURI, platform)
    ensures Rewrite(href, hash, baseURI, platform) == Rewritten(baseURI, Some(href))
  {
  }

  /** A `#`-free absolute path followed by a fragment navigates to that path
      with that fragment. */
  lemma PathWithFragmentTarget(path: string, fragment: string, hash: Option<string>, baseURI: string, platform: string)
    requires StartsWith(path, "/") && !Contains(path, "#") && StartsWith(fragment, "#")
    ensures MDXLink(path + fragment, hash, baseURI, platform)
            == Internal(path, if platform != [] then Some(platform) else None, Some(fragment))
  {
    var href := path + fragment;
    assert href[..1] == path[..1];
    SplitAtFragmentUnique(href, path, fragment);
    var t := MDXLink(href, hash, baseURI, platform);
    SplitAtFragmentUnique(href, t.pathname, t.fragment.value);
  }

  /** An absolute path without `#` navigates to itself and keeps the hash it was given. */
  lemma PathWithoutFragmentTarget(href: string, hash: Option<string>, baseURI: string, platform: string)
    requires StartsWith(href, "/") && !Contains(href, "#")
    ensures MDXLink(href, hash, baseURI, platform)
            == Internal(href, if platform != [] then Some(platform) else None, hash)
  {
    GuardsDisjoint(href);
    assert IsAt(href, "/", 0);
  }

  // The example lemmas below take their strings as parameters fixed by `requires`:
  // with literal arguments Dafny unrolls IndexOfFrom character by character and
  // the proofs run out of resource.

  /** `/docs/guide#section` navigates to `/docs/guide` with fragment `#section`,
      on any page. */
  lemma ExamplePathWithFragment(href: string, baseURI: string, platform: string)
    requires href == "/docs/guide#section" && platform == "linux"
    ensures MDXLink(href, None, baseURI, platform) == Internal("/docs/guide", Some("linux"), Some("#section"))
  {
    var path, fragment := "/docs/guide", "#section";
    assert href == path + fragment;
    StartsWithChar(path, '/');
    ContainsChar(path, '#');
    StartsWithChar(fragment, '#');
    PathWithFragmentTarget(path, fragment, None, baseURI, platform);
  }

  /** `#section` on `/docs/linux` with platform `linux` navigates to `/docs/[platform]`. */
  lemma ExampleSamePagePlatformInPath(href: string, baseURI: string, platform: string)
    requires href == "#section" && baseURI == "/docs/linux" && platform == "linux"
    ensures MDXLink(href, None, baseURI, platform) == Internal("/docs/[platform]", Some("linux"), Some("#section"))
  {
    StartsWithChar(href, '#');
    ContainsChar(href, '/');
    assert baseURI[6..11] == platform;
    assert baseURI[..6] == "/docs/";
    FirstOccurrenceByHead(baseURI, platform, 6);
    ReplaceFirstAt(baseURI, platform, PlatformPlaceholder, 6);
    assert baseURI[..6] + PlatformPlaceholder + baseURI[11..] == "/docs/[platform]";
  }

  /** `#section` on `/docs/guide` with platform `linux` keeps `/docs/guide`: the
      platform does not occur in that path, so nothing is replaced. */
  lemma ExampleSamePageNoPlatformInPath(href: string, baseURI: string, platform: string)
    requires href == "#section" && baseURI == "/docs/guide" && platform == "linux"
    ensures MDXLink(href, None, baseURI, platform) == Internal("/docs/guide", Some("linux"), Some("#section"))
  {
    StartsWithChar(href, '#');
    ContainsChar(href, '/');
    AbsentHead(baseURI, platform);
  }

  /** `/docs/guide` without a fragment is left as it is, with no fragment, on any page. */
  lemma ExamplePathWithoutFragment(href: string, baseURI: string, platform: string)
    requires href == "/docs/guide" && platform == "linux"
    ensures MDXLink(href, None, baseURI, platform) == Internal("/docs/guide", Some("linux"), None)
  {
    StartsWithChar(href, '/');
    ContainsChar(href, '#');
    PathWithoutFragmentTarget(href, None, baseURI, platform);
  }

  /** `#a/b` mentions a path, so neither rewrite applies, on any page and platform. */
  lemma ExampleFragmentWithSlash(href: string, hash: Option<string>, baseURI: string, platform: string)
    requires href == "#a/b"
    ensures MDXLink(href, hash, baseURI, platform).Internal?
    ensures MDXLink(href, hash, baseURI, platform).pathname == "#a/b"
    ensures MDXLink(href, hash, baseURI, platform).fragment == hash
  {
    StartsWithChar(href, '/');
    StartsWithChar(href, '#');
    ContainsChar(href, '/');
  }

  /** `https://example.com` is external and keeps its href, on any page and platform. */
  lemma ExampleExternal(href: string, hash: Option<string>, baseURI: string, platform: string)
    requires href == "https://example.com"
    ensures MDXLink(href, hash, baseURI, platform) == External("https://example.com")
  {
    IsInternalFirstChar(href);
  }
}
