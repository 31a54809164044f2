# MDXLink: link classification and rewriting, modelled in Dafny

The documentation site renders every link found in authored MDX content through
the `MDXLink` component. The component decides whether a link is internal to
the site or external. Internal links become client-side navigations and
external links become plain outbound links. Before that, it normalises two
internal shapes:

- an absolute path that carries a fragment (`/docs/guide#section`) is split at
  its first `#` into a path and a fragment;
- a bare fragment that names no path (`#section`) becomes a link to the current
  page, whose path has the current platform's first occurrence replaced by the
  placeholder `[platform]`.

An internal target carries the path, a `platform` query when a platform is
known, and the fragment. An external target carries the href as written.

The model has two modules:

- `strings.dfy`: `Wrappers.Option` (a value that may be `undefined`) and
  `Strings`, the JavaScript string operations the component uses over
  `seq<char>`. These are `startsWith`, `includes`, `indexOf` (first occurrence,
  -1 when absent) and `replace` with a string pattern (first occurrence
  only). The component's `slice` calls are Dafny's built-in subsequences
  `s[..i]` and `s[i..]` in `SplitAtFragment`.
- `mdx_link.dfy`: `MDXComponents`. It has the classifier `IsInternal`, the two
  rewrite guards, `SplitAtFragment`, `Rewrite` (the two ordered rewrites of the
  locals `href` and `hash`), the target datatype, and `MDXLink`, which builds
  the target. Lemmas state the properties.

The component reassigns two local variables in two ordered `if` blocks and has
no loop, field or collection. So `Rewrite` is a pure function that binds the
result of the first block and then applies the second block to it. The two
framework hooks are parameters. `baseURI` stands for `usePathWithoutHash()` and
`platform` stands for `useCurrentPlatform()`.

Things the proofs make explicit:

- Classification uses the href as written, before either rewrite. An
  internal link therefore stays an internal target even when its rewritten
  path no longer looks internal.
- `String.prototype.replace` with an empty pattern matches at index 0. With
  an empty platform, a same-page link therefore resolves to
  `[platform]` followed by the page path, which does not start with `/`
  (`EmptyPlatformPrependsPlaceholder`), so with an empty platform a
  same-page link's rewritten href is never internal. Re-classifying the
  rewritten href gives internal again when the page path starts with `/` and
  the platform is non-empty and does not itself start with `/`
  (`RewriteStaysInternal`). That condition is sufficient, not necessary.
- One might expect `#section` on `/docs/guide` with platform `linux` to
  become `/docs/[platform]`. The code replaces the platform only where it
  occurs in the page path, so that link keeps `/docs/guide`
  (`ExampleSamePageNoPlatformInPath`). On `/docs/linux` the same link
  becomes `/docs/[platform]` (`ExampleSamePagePlatformInPath`).

## Model

| member | source | states |
|---|---|---|
| Strings.StartsWith | src/components/MDXComponents/MDXLink.tsx:8 | `startsWith`: the text is at least as long as the pattern and agrees with it position by position |
| Strings.Contains | src/components/MDXComponents/MDXLink.tsx:12 | `includes`: defined as some index at which the pattern occurs |
| Strings.FirstOccurrence | src/components/MDXComponents/MDXLink.tsx:13-14 | defined as an occurrence with no occurrence at any smaller index; the reference for `indexOf` |
| Strings.IndexOfFrom | src/components/MDXComponents/MDXLink.tsx:13-14 | the result is -1 exactly when the pattern occurs nowhere at or after `from`; otherwise it is an occurrence at or after `from` with none between `from` and it |
| Strings.IndexOf | src/components/MDXComponents/MDXLink.tsx:13-14 | `indexOf` is -1 exactly when the pattern does not occur, and otherwise is the leftmost occurrence |
| Strings.ReplaceFirst | src/components/MDXComponents/MDXLink.tsx:19 | `replace` leaves the text unchanged when the pattern is absent; otherwise the result is the text before the leftmost occurrence, then the replacement, then the text after that occurrence |
| Strings.FirstOccurrenceUnique | src/components/MDXComponents/MDXLink.tsx:13-14 | the leftmost occurrence is unique |
| Strings.ContainsChar | src/components/MDXComponents/MDXLink.tsx:12 | `includes` of a one-character string holds iff that character is an element |
| Strings.StartsWithChar | src/components/MDXComponents/MDXLink.tsx:8 | `startsWith` of a one-character string holds iff the text is non-empty and begins with that character |
| Strings.AbsentHead | src/components/MDXComponents/MDXLink.tsx:19 | a non-empty pattern whose first character is absent from the text does not occur in it |
| Strings.ReplaceFirstAt | src/components/MDXComponents/MDXLink.tsx:19 | given any leftmost occurrence, `replace` splices the replacement in at exactly that index |
| Strings.ReplaceFirstEmptyPattern | src/components/MDXComponents/MDXLink.tsx:19 | replacing the empty pattern puts the replacement in front of the text |
| Strings.ReplaceFirstKeepsHead | src/components/MDXComponents/MDXLink.tsx:19 | if the text starts with `c` and the non-empty pattern does not, the result still starts with `c` |
| MDXComponents.IsInternal | src/components/MDXComponents/MDXLink.tsx:8 | `isInternal`: defined as a non-empty href that starts with `/` or `#` |
| MDXComponents.HasPathAndFragment | src/components/MDXComponents/MDXLink.tsx:12 | the first rewrite's guard holds iff the href is non-empty, begins with `/` and contains `#` |
| MDXComponents.IsSamePageFragment | src/components/MDXComponents/MDXLink.tsx:17 | the second rewrite's guard holds iff the href is non-empty, begins with `#` and contains no `/` |
| MDXComponents.IsInternalFirstChar | src/components/MDXComponents/MDXLink.tsx:8 | a link is internal iff its href is non-empty and its first character is `/` or `#` |
| MDXComponents.SplitAtFragment | src/components/MDXComponents/MDXLink.tsx:13-14 | for an href containing `#`: path followed by fragment is the href, the path has no `#`, and the fragment starts with `#` |
| MDXComponents.SplitAtFragmentUnique | src/components/MDXComponents/MDXLink.tsx:13-14 | any decomposition into a `#`-free path and a fragment starting with `#` is the split; the split is at the first `#` |
| MDXComponents.SplitKeepsLeadingSlash | src/components/MDXComponents/MDXLink.tsx:12-14 | after splitting an href that starts with `/`, the path still starts with `/` and is internal |
| MDXComponents.SplitDisablesSamePage | src/components/MDXComponents/MDXLink.tsx:12-20 | after the first rewrite has fired, the guard of the second one is false |
| MDXComponents.GuardsDisjoint | src/components/MDXComponents/MDXLink.tsx:12-17 | no href satisfies both rewrite guards |
| MDXComponents.Rewrite | src/components/MDXComponents/MDXLink.tsx:12-20 | path-and-fragment href: new href followed by new hash is the original, the new href has no `#` and starts with `/`, the new hash starts with `#`; same-page fragment: the new hash is the original href and the new href is the page path with the platform's first occurrence replaced by `[platform]`; any other href: href and hash unchanged |
| MDXComponents.ExternalKeepsHref | src/components/MDXComponents/MDXLink.tsx:12-20 | an external href passes through both rewrites unchanged, with the hash it was given |
| MDXComponents.SamePageWithoutPlatformInPath | src/components/MDXComponents/MDXLink.tsx:17-19 | a same-page link on a page whose path does not contain the platform gets that path unchanged |
| MDXComponents.EmptyPlatformPrependsPlaceholder | src/components/MDXComponents/MDXLink.tsx:17-19 | with an empty platform a same-page link gets `[platform]` followed by the page path, which is not internal |
| MDXComponents.RewriteStaysInternal | src/components/MDXComponents/MDXLink.tsx:8-20 | an internal href stays internal after rewriting, given a same-page link resolves against a `/`-path and a non-empty platform not starting with `/` |
| MDXComponents.MDXLink | src/components/MDXComponents/MDXLink.tsx:6-34 | the target is external iff the original href is not internal, and then carries the original href; an internal target has a `platform` query iff the platform is non-empty, and its path and fragment are as `Rewrite` states for each case |
| MDXComponents.PathWithFragmentTarget | src/components/MDXComponents/MDXLink.tsx:12-15 | a `#`-free absolute path followed by a fragment navigates to that path with that fragment |
| MDXComponents.PathWithoutFragmentTarget | src/components/MDXComponents/MDXLink.tsx:12-28 | an absolute path without `#` navigates to itself with the hash it was given |
| MDXComponents.ExamplePathWithFragment | src/components/MDXComponents/MDXLink.tsx:12-28 | `/docs/guide#section` gives path `/docs/guide`, query `linux`, fragment `#section` |
| MDXComponents.ExampleSamePagePlatformInPath | src/components/MDXComponents/MDXLink.tsx:17-28 | `#section` on `/docs/linux` with platform `linux` gives path `/docs/[platform]` and fragment `#section` |
| MDXComponents.ExampleSamePageNoPlatformInPath | src/components/MDXComponents/MDXLink.tsx:17-28 | `#section` on `/docs/guide` with platform `linux` gives path `/docs/guide` and fragment `#section` |
| MDXComponents.ExamplePathWithoutFragment | src/components/MDXComponents/MDXLink.tsx:12-28 | `/docs/guide` gives path `/docs/guide` and no fragment |
| MDXComponents.ExampleFragmentWithSlash | src/components/MDXComponents/MDXLink.tsx:17-28 | `#a/b` is internal and neither rewrite touches it |
| MDXComponents.ExampleExternal | src/components/MDXComponents/MDXLink.tsx:22-33 | `https://example.com` is external with its href unchanged |

## Left out

- Rendering: the JSX, `next/link`'s `Link` and the `ExternalLink` component are presentation. Only the fields they receive are modelled, as `Target`.
- The hooks `useCurrentPlatform` and `usePathWithoutHash` read the framework's context. Their results are the parameters `platform` and `baseURI`. The second call of `useCurrentPlatform` when the query is built is taken to return the same value as the first.
- `decodeURI` of the pathname is an ECMAScript library call with its own error behaviour. The target's `pathname` is the href before decoding.
- An `undefined` or `null` href makes the prefix checks throw. The model takes href to be a string.
- `undefined` as the platform: `replace` would then search for the text `undefined`. The model takes the platform to be a possibly empty string, and empty is the only falsy value.
- `replace` expands `$` patterns in its replacement. The only replacement used is `[platform]`, which has none, so `ReplaceFirst` inserts it literally.
- A Dafny `string` is a sequence of Unicode scalar values, while a JavaScript string is a sequence of UTF-16 code units. On well-formed strings `indexOf('#')`, slicing and `replace(platform, …)` give the same strings either way. Hrefs holding lone surrogates cannot be represented.
- `children` is opaque renderable content and is passed through untouched, so it is not modelled.
