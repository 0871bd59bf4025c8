# gitbook-blocksmith documentation frame and theme tokens, in Dafny

This project models two parts of the `gitbook` package of gitbook-blocksmith.

The first part is the documentation page. A request under `/docs/...` is
answered by a route (`DocsProxy`) that renders a full-screen embedded frame.
The frame loads the same documentation under `/url/gitbook.com/docs/...`,
which a reverse proxy forwards to the upstream site. Two handlers then keep
the host's address bar and the frame's location in step:

- `syncFromIframe` mirrors the frame's location into the host's history;
- the host-to-frame effect re-points the frame when the host address changes.

Both rely on the path translators `urlToDocs` and `docsToUrl`.

The second part is the integer core of the theme's colour tokens in
`tailwind.config.ts`:

- `hexToRgb`, `clamp` and `toHex`;
- the key structure of `shadesOfColor`;
- `generateVarShades`, which builds palettes of CSS-variable references;
- `generateShades`, which builds Tailwind colours with an alpha slot.

Modules:

- `Paths` (`paths.dfy`): the two translators, and when they undo each other.
- `FrameSync` (`frame_sync.dfy`): the two handlers.
  - `FrameToHost` and `HostToFrame` are the specification functions over a
    `SyncState`, which holds both addresses, both histories, how far the
    frame can be reached, and the frame's `src` attribute.
  - The class `DocsFrame` holds the same state in fields. Its two methods are
    proved to perform exactly one step of each function.
  - Both handlers compare against `searchParams.toString()`, the browser's
    serialisation of the host's query. This serialisation is a parameter
    `query` of the model.
  - Lemmas prove consistency. They prove idempotence and loop freedom for
    queries the serialisation gives back unchanged, and show what happens
    for other queries and after a back/forward step.
- `InitialSource` (`initial_source.dfy`): `DocsProxy`. It builds the
  `URLSearchParams` query in place, with `append` for array values and `set`
  for single values, and assembles the frame's first address.
- `Numerals` (`numerals.dfy`): `String(n)`, `n.toString(16)` and the values
  of digit strings.
- `ColorCodec` (`color_codec.dfy`): `parseInt(…, 16)`, `hexToRgb`, `clamp`
  and `toHex`, with their round trips.
- `ThemeTokens` (`theme_tokens.dfy`): the palette builders.
  - Each builder is a method filling a map with loops.
  - Each method is proved equal to a specification function.
  - Lemmas give the key set, the values and the size of each palette.
- `Wrappers` (`wrappers.dfy`): `Option`, standing for `null`/`undefined`.

Where the code and its comments or intent differ, the model follows the code:

- `syncFromIframe` pushes a history entry (`window.history.pushState`,
  DocsFrame.tsx:44), though the comment beside it speaks of changing the
  address without a reload. The model pushes, so `hostHistory` grows by one
  entry per write.
- `urlToDocs` and `docsToUrl` are not inverse on every path.
  `Paths.RoundTripExactly` shows that a round trip restores a path exactly
  when the remainder after the prefix starts with `/`.
  - An empty remainder, or one without a leading `/`, comes back with a `/`
    inserted (`/docsfoo` becomes `/url/gitbook.com/docs/foo`).
  - `FrameSync.NormalisingRedirect` shows the consequence. Such a frame path
    causes exactly one corrective navigation, after which the two sides are
    at rest.
- The handlers compare the frame's raw `search` with the host's query
  re-serialised by `searchParams.toString()` (DocsFrame.tsx:40-42 and 70).
  The two differ for queries such as `?a` (written back as `a=`) or
  `?q=a%20b` (written back as `q=a+b`).
  - `FrameSync.RepeatedPush` shows the consequence. For such a query the
    host pushes its own address again each time `syncFromIframe` runs.
- The first effect also calls `syncFromIframe` directly (DocsFrame.tsx:55),
  on mount and whenever the host address changes.
  - `FrameSync.StaleFramePushedBack` shows the consequence. After a
    back/forward step, the frame still shows the previous page, so that call
    pushes the previous page back onto the host history.

## Model

| member | source | states |
|---|---|---|
| Paths.Normalize | packages/gitbook/src/app/docs/DocsFrame.tsx:10-11 | the normalised remainder always starts with `/`; it is the remainder itself exactly when that already starts with `/`, and otherwise the remainder with one `/` in front |
| Paths.Rebase | packages/gitbook/src/app/docs/DocsFrame.tsx:7-19 | None exactly when the path lacks the source prefix; otherwise the target prefix followed by `/`, then the remainder, with or without an inserted `/` |
| Paths.UrlToDocs | packages/gitbook/src/app/docs/DocsFrame.tsx:7-12 | null exactly for paths not starting with `/url/gitbook.com/docs`; every translation starts with `/docs/` |
| Paths.DocsToUrl | packages/gitbook/src/app/docs/DocsFrame.tsx:14-19 | null exactly for paths not starting with `/docs`; every translation starts with `/url/gitbook.com/docs/` |
| Paths.RebaseSlash | packages/gitbook/src/app/docs/DocsFrame.tsx:10-11 | a remainder that starts with `/` is carried over unchanged |
| Paths.RoundTrip | packages/gitbook/src/app/docs/DocsFrame.tsx:7-19 | for every suffix starting with `/`, each translator maps its prefix plus the suffix to the other prefix plus the same suffix, and the two undo each other in both directions |
| Paths.RoundTripExactly | packages/gitbook/src/app/docs/DocsFrame.tsx:7-19 | translating and translating back gives the original path if and only if its remainder after the prefix starts with `/` |
| Paths.TranslationSettles | packages/gitbook/src/app/docs/DocsFrame.tsx:7-19 | a translated path is in normal form: translating it back and forth again gives the same translation |
| Paths.EdgeCases | packages/gitbook/src/app/docs/DocsFrame.tsx:9-18 | the bare prefixes translate to `/docs/` and `/url/gitbook.com/docs/`; `/docsfoo` becomes `/url/gitbook.com/docs/foo`, which comes back as `/docs/foo`; a path outside `/docs` gives null |
| FrameSync.Href | packages/gitbook/src/app/docs/DocsFrame.tsx:40-41 | the address string begins with the path and continues with the search, so both can be read back from it |
| FrameSync.HostSearch | packages/gitbook/src/app/docs/DocsFrame.tsx:70 | the host's query as the handlers write it: empty exactly when `searchParams.toString()` is empty, and otherwise `?` followed by it |
| FrameSync.ReplaceLast | packages/gitbook/src/app/docs/DocsFrame.tsx:82 | `location.replace` keeps the history's length (one entry for an empty history) and all but its last entry, and makes the new address the current entry |
| FrameSync.HostTarget | packages/gitbook/src/app/docs/DocsFrame.tsx:36-41 | there is an address to mirror exactly when the frame path is under `/url/gitbook.com/docs`; its path is under `/docs/` and it keeps the frame's own search |
| FrameSync.FrameTarget | packages/gitbook/src/app/docs/DocsFrame.tsx:67-71 | there is a wanted frame address exactly when the host path is under `/docs`; its path is under `/url/gitbook.com/docs/` and its search is the host's serialised query |
| FrameSync.FrameToHost | packages/gitbook/src/app/docs/DocsFrame.tsx:32-49 | syncFromIframe touches only the host address and history; the history either stays the same or gains exactly the new host address as its last entry |
| FrameSync.HostToFrame | packages/gitbook/src/app/docs/DocsFrame.tsx:63-88 | the host effect never touches the host side; the frame history keeps its length, and when the frame moves, its current entry is replaced by the new address |
| FrameSync.RebaseKeepsNoQuery | packages/gitbook/src/app/docs/DocsFrame.tsx:7-19 | translating a path that holds no `?` gives a path without `?`, so a translated path and a search still split apart correctly |
| FrameSync.FrameToHostConsistent | packages/gitbook/src/app/docs/DocsFrame.tsx:32-49 | syncFromIframe keeps both addresses well formed and each the current entry of its history |
| FrameSync.HostToFrameConsistent | packages/gitbook/src/app/docs/DocsFrame.tsx:63-88 | the host effect keeps both addresses well formed and each the current entry of its history |
| FrameSync.HrefInjective | packages/gitbook/src/app/docs/DocsFrame.tsx:40-42 | comparing `pathname + search` strings is the same as comparing well-formed addresses, in both directions |
| FrameSync.SeenHost | packages/gitbook/src/app/docs/DocsFrame.tsx:40 | the host address as syncFromIframe compares it (path, then serialised query) is well formed, and it is the host's own address when the serialisation gives the search back |
| FrameSync.FrameToHostNoWrite | packages/gitbook/src/app/docs/DocsFrame.tsx:33-38 | with no frame, no window, a location that throws, or a frame path outside `/url/gitbook.com/docs`, syncFromIframe changes nothing |
| FrameSync.FrameToHostWrites | packages/gitbook/src/app/docs/DocsFrame.tsx:40-45 | syncFromIframe writes exactly when the translated frame address differs from the host's path followed by its serialised query; the write pushes that address as one new host history entry |
| FrameSync.FrameToHostIdempotent | packages/gitbook/src/app/docs/DocsFrame.tsx:32-55 | a second run of syncFromIframe (the frame's next load event) with the frame unmoved writes nothing, when the serialisation gives the frame's search back |
| FrameSync.RepeatedPush | packages/gitbook/src/app/docs/DocsFrame.tsx:40-44 | when the serialisation does not give the host's search back (`?a` becomes `a=`), a host already at the frame's address pushes that same address again on every run |
| FrameSync.HostToFrameNoOp | packages/gitbook/src/app/docs/DocsFrame.tsx:64-68 | without a frame element, or with a host path outside `/docs`, the host effect changes nothing |
| FrameSync.HostToFrameFallback | packages/gitbook/src/app/docs/DocsFrame.tsx:74-77 | without a window, or when reading its location throws, the host effect sets only `src`, to the translated host path plus the host's serialised query |
| FrameSync.HostToFrameReplaces | packages/gitbook/src/app/docs/DocsFrame.tsx:79-83 | with a reachable window, the frame is replaced exactly when its address differs from the wanted one (translated host path, serialised host query); afterwards the frame is at the wanted address, its history has the same length, and `src` is untouched |
| FrameSync.HostToFrameIdempotent | packages/gitbook/src/app/docs/DocsFrame.tsx:63-88 | re-running the host effect with the host unchanged leaves the recorded state (addresses, histories, `src`) as the first run left it |
| FrameSync.NoLoopFromFrame | packages/gitbook/src/app/docs/DocsFrame.tsx:32-88 | once the host mirrors a frame at `/url/gitbook.com/docs` + s (s starting with `/`) whose search the serialisation gives back, the host is at `/docs` + s with a query serialising to the frame's search, and the effect this triggers navigates nowhere |
| FrameSync.NoLoopFromHost | packages/gitbook/src/app/docs/DocsFrame.tsx:32-88 | once the frame is re-pointed for a host at `/docs` + s (s starting with `/`), the frame sits at `/url/gitbook.com/docs` + s with the host's serialised query, and its load event writes nothing to the host |
| FrameSync.StaleFramePushedBack | packages/gitbook/src/app/docs/DocsFrame.tsx:32-55 | a frame still showing page s while the host shows another page, as after a back/forward step, makes syncFromIframe push `/docs` + s, the frame's page, back onto the host history |
| FrameSync.NormalisingRedirect | packages/gitbook/src/app/docs/DocsFrame.tsx:7-88 | a frame path whose remainder lacks a leading `/` (with a search the serialisation gives back) is moved exactly once, to the normalised path, after which syncFromIframe writes nothing |
| FrameSync.DocsFrame.constructor | packages/gitbook/src/app/docs/DocsFrame.tsx:92-96 | on mount the frame is at `initialSrc`, `src` is its string, each history holds its one current address, and the state is consistent |
| FrameSync.DocsFrame.SyncFromIframe | packages/gitbook/src/app/docs/DocsFrame.tsx:32-49 | the handler's effect on the component state, given the host query's serialisation, is exactly one `FrameToHost` step, and it keeps the state consistent |
| FrameSync.DocsFrame.SyncToIframe | packages/gitbook/src/app/docs/DocsFrame.tsx:63-88 | the effect's result on the component state, given the host query's serialisation, is exactly one `HostToFrame` step, and it keeps the state consistent |
| InitialSource.Join | packages/gitbook/src/app/docs/page.tsx:10 | joining no segments gives the empty string, one segment gives that segment, and the join is empty only for no segments or one empty segment |
| InitialSource.JoinConcat | packages/gitbook/src/app/docs/page.tsx:10 | joining two non-empty lists of segments is joining each and putting one `/` between them, so every further segment adds `/` and the segment |
| InitialSource.Suffix | packages/gitbook/src/app/docs/page.tsx:10 | the suffix is empty exactly when the path is absent, has no segments, or is one empty segment |
| InitialSource.Append | packages/gitbook/src/app/docs/page.tsx:14 | after `append`, `getAll` of the name gives what it gave before followed by the value, and every other name gives what it gave before |
| InitialSource.Without | packages/gitbook/src/app/docs/page.tsx:15 | the pairs kept are exactly those of the query not carrying the name, so no pair carries it afterwards, and the query is no longer |
| InitialSource.Set | packages/gitbook/src/app/docs/page.tsx:15 | `set` of a name the query lacks appends one pair |
| InitialSource.Tagged | packages/gitbook/src/app/docs/page.tsx:14 | an array value contributes one pair per element |
| InitialSource.Serialize | packages/gitbook/src/app/docs/page.tsx:21 | the serialised query is empty exactly when there are no pairs |
| InitialSource.FramePath | packages/gitbook/src/app/docs/page.tsx:18-20 | the path part is the frame prefix, `/` and the suffix; it is what `docsToUrl` gives for the public path `/docs/` + suffix, and for `/docs` when the suffix is empty |
| InitialSource.QueryPart | packages/gitbook/src/app/docs/page.tsx:21 | the query part is empty exactly when there are no pairs, and otherwise `?` followed by the serialised pairs |
| InitialSource.DocsProxy | packages/gitbook/src/app/docs/page.tsx:9-21 | the in-place loops over the entries build exactly the query `QueryPairs` describes, and the target is the frame path for the joined segments followed by that query |
| InitialSource.AbsentKey | packages/gitbook/src/app/docs/page.tsx:12-16 | a name that no entry has appears nowhere in the query |
| InitialSource.ContributionKeys | packages/gitbook/src/app/docs/page.tsx:13-16 | every pair an entry adds carries that entry's name |
| InitialSource.NoEarlierKey | packages/gitbook/src/app/docs/page.tsx:15 | the pairs built before an entry never carry its name, so its `set` appends rather than overwrites |
| InitialSource.QueryValues | packages/gitbook/src/app/docs/page.tsx:12-16 | `getAll` of an entry's name on the built query gives exactly its values: all array elements in order, the single value, or nothing for a missing one |
| InitialSource.LastEntryValues | packages/gitbook/src/app/docs/page.tsx:13-16 | under the last entry's name the query holds exactly that entry's values |
| InitialSource.EarlierEntryValues | packages/gitbook/src/app/docs/page.tsx:13-16 | the last entry adds nothing under an earlier entry's name |
| InitialSource.GetAllTagged | packages/gitbook/src/app/docs/page.tsx:14 | appending every array element under one name gives back the array, in order |
| InitialSource.GuideInstallExample | packages/gitbook/src/app/docs/page.tsx:9-21 | path segments `guide`, `install` and the parameter `tab=2` give `/url/gitbook.com/docs/guide/install?tab=2` |
| Numerals.DecimalString | packages/gitbook/tailwind.config.ts:51 | `String(n)` is a non-empty run of decimal digits, one digit exactly when n < 10 |
| Numerals.DecimalStringInjective | packages/gitbook/tailwind.config.ts:47 | different numbers have different decimal strings, and equal numbers equal ones |
| Numerals.HexString | packages/gitbook/tailwind.config.ts:33 | `n.toString(16)` is a non-empty run of lower-case hex digits, one digit exactly when n < 16 |
| Numerals.HexRoundTrip | packages/gitbook/tailwind.config.ts:33 | reading back what `toString(16)` wrote gives the number |
| Numerals.HexPairBound | packages/gitbook/tailwind.config.ts:21-23 | two hex digits denote their weighted sum, at most 255 |
| ColorCodec.Clamp | packages/gitbook/tailwind.config.ts:27 | with min <= max the result lies in [min, max]; values in range are unchanged; values below go to min and values above to max |
| ColorCodec.ClampIdempotent | packages/gitbook/tailwind.config.ts:27 | clamping twice to the same range is clamping once |
| ColorCodec.TrimStart | packages/gitbook/tailwind.config.ts:21-23 | exactly the leading white space `parseInt` skips is removed: the result is a suffix of the text, everything before it is white space, and it does not start with white space |
| ColorCodec.HexRun | packages/gitbook/tailwind.config.ts:21-23 | the digits `parseInt` reads are the longest prefix of the text made of hex digits: a prefix of hex digits, followed by a non-digit or the end of the text |
| ColorCodec.ParseIntHex | packages/gitbook/tailwind.config.ts:21-23 | `parseInt(t, 16)` of a non-empty string of hex digits is their value |
| ColorCodec.NumberString | packages/gitbook/tailwind.config.ts:24 | a non-negative number is written in the template literal as its decimal digits |
| ColorCodec.RemoveFirst | packages/gitbook/tailwind.config.ts:20 | a leading `#` is removed |
| ColorCodec.Slice | packages/gitbook/tailwind.config.ts:21-23 | `slice(from, to)` within the string is the subsequence from `from` to `to` |
| ColorCodec.PadStart2 | packages/gitbook/tailwind.config.ts:33 | a string of at least two characters is unchanged, and a shorter one ends with the original behind `'0'`s, two characters in all |
| ColorCodec.HexToRgb | packages/gitbook/tailwind.config.ts:19-25 | on `#` followed by six hex digits, `hexToRgb` gives the values of the three digit pairs, each at most 255, in decimal, separated by single spaces |
| ColorCodec.ColorPairs | packages/gitbook/tailwind.config.ts:20-23 | on `#` and six hex digits, the three slices `hexToRgb` cuts out are the digit pairs, each denoting at most 255 |
| ColorCodec.HexComponent | packages/gitbook/tailwind.config.ts:33 | a component in 0..255 is written as exactly two lower-case hex digits that read back as the component |
| ColorCodec.ToHex | packages/gitbook/tailwind.config.ts:32-35 | `toHex` of components in 0..255 is `#` and six lower-case hex digits whose pairs read back as the components |
| ColorCodec.HexComponentOfDigits | packages/gitbook/tailwind.config.ts:33 | two lower-case hex digits are written back unchanged from their value |
| ColorCodec.LowerHexDigitOf | packages/gitbook/tailwind.config.ts:33 | a lower-case hex digit is the digit `toString(16)` writes for its value |
| ColorCodec.RgbRoundTrip | packages/gitbook/tailwind.config.ts:19-35 | encoding components in 0..255 with `toHex` and decoding with `hexToRgb` gives back the components |
| ColorCodec.LowerHexParts | packages/gitbook/tailwind.config.ts:32-35 | every part of a lower-case hex string is lower-case hex |
| ColorCodec.HexColorRoundTrip | packages/gitbook/tailwind.config.ts:19-35 | decoding a lower-case colour's digit pairs and encoding them with `toHex` gives back the colour |
| ThemeTokens.ShadeKeyTable | packages/gitbook/tailwind.config.ts:15 | the shade keys are `String(s)` of the ten shades, in order |
| ThemeTokens.IndexKeyTable | packages/gitbook/tailwind.config.ts:47 | `indexKeys` is `String(i)` for i in 0..12, thirteen keys |
| ThemeTokens.WordKeys | packages/gitbook/tailwind.config.ts:57-61 | no named key, and not `DEFAULT`, begins with a decimal digit |
| ThemeTokens.KeyTablesDistinct | packages/gitbook/tailwind.config.ts:15-47 | neither numeral table repeats a key |
| ThemeTokens.ShadesAreNotIndices | packages/gitbook/tailwind.config.ts:15-47 | no shade key is an index key |
| ThemeTokens.NumeralsAreNotWords | packages/gitbook/tailwind.config.ts:47-61 | numeral keys never collide with keys that begin with a letter |
| ThemeTokens.KeyGroupsDisjoint | packages/gitbook/tailwind.config.ts:47-76 | shade, index and named keys are pairwise disjoint; `DEFAULT` is not a shade key and `500` is |
| ThemeTokens.NextKeyIsNew | packages/gitbook/tailwind.config.ts:51 | in a list without repeats, a key is not among those before it |
| ThemeTokens.Extend | packages/gitbook/tailwind.config.ts:51-54 | assigning each listed key in turn gives a map whose keys are the old keys plus the listed ones; listed keys carry their new value and the others keep theirs |
| ThemeTokens.ExtendSize | packages/gitbook/tailwind.config.ts:51-54 | assigning distinct new keys adds exactly one entry per key |
| ThemeTokens.AssignEach | packages/gitbook/tailwind.config.ts:51 | the `for … of` assignment loop builds exactly the map `Extend` describes |
| ThemeTokens.VarRef | packages/gitbook/tailwind.config.ts:51-61 | the reference `rgb(var(--<varName>-<key>))` has the variable name and the key at fixed places, so both can be read back and different keys give different references |
| ThemeTokens.ThreeGroupsSize | packages/gitbook/tailwind.config.ts:48-64 | three disjoint groups of distinct keys, the middle one optional, give one entry per key |
| ThemeTokens.GenerateVarShades | packages/gitbook/tailwind.config.ts:48-64 | the method's loops and assignments build exactly the palette `VarShades` describes |
| ThemeTokens.VarShadesKeys | packages/gitbook/tailwind.config.ts:48-64 | the palette always has the shade keys and the five named keys, the index keys `0`..`12` exactly when the filter is empty, and nothing else |
| ThemeTokens.VarShadesValues | packages/gitbook/tailwind.config.ts:51-61 | every entry is `rgb(var(--<varName>-<key>))` for its own key |
| ThemeTokens.VarShadesSize | packages/gitbook/tailwind.config.ts:48-64 | the palette has 28 entries without a filter and 15 with one, so no group overwrites another |
| ThemeTokens.NamedKeysDistinct | packages/gitbook/tailwind.config.ts:57-61 | the five named keys are different |
| ThemeTokens.ShadesOfColor | packages/gitbook/tailwind.config.ts:36-45 | the result has exactly the ten shade keys, and the entry for shade s is the colour computed for s |
| ThemeTokens.ShadeHex | packages/gitbook/tailwind.config.ts:71 | the colour for a key is the table's own colour for it, else the table's `500` colour, and `#808080` only when the table has neither |
| ThemeTokens.AlphaColor | packages/gitbook/tailwind.config.ts:72 | a colour `#rrggbb` becomes `rgb(r g b / <alpha-value>)` with the digit pairs' values in decimal |
| ThemeTokens.WithDefault | packages/gitbook/tailwind.config.ts:76 | the `DEFAULT` assignment adds that one key, keeps every other entry, and sets it to the `500` entry or else `#808080` |
| ThemeTokens.GenerateShades | packages/gitbook/tailwind.config.ts:66-79 | the method's loop and `DEFAULT` assignment build exactly the palette `ShadeTable` describes |
| ThemeTokens.ShadeTableKeys | packages/gitbook/tailwind.config.ts:70-76 | the palette has the ten shade keys and `DEFAULT`, and nothing else |
| ThemeTokens.ShadeTableSize | packages/gitbook/tailwind.config.ts:70-76 | the palette has eleven entries |
| ThemeTokens.ShadeTableValues | packages/gitbook/tailwind.config.ts:71-72 | each shade entry is `rgb(<hexToRgb of the chosen colour> / <alpha-value>)`, where the chosen colour is the table's own, else its `500` colour, else `#808080` |
| ThemeTokens.ShadeTableDefault | packages/gitbook/tailwind.config.ts:76 | `500` is always present, so `DEFAULT` equals the `500` entry and the `#808080` fallback is never taken |
| ThemeTokens.ShadeTableOfFullTable | packages/gitbook/tailwind.config.ts:67-72 | for a table with every shade key, as shadesOfColor returns, each entry comes from that shade's own colour |
| ThemeTokens.ShadeTableOfHex | packages/gitbook/tailwind.config.ts:70-72 | when the table holds a `#rrggbb` colour for a shade key, the palette entry for that key is `rgb(r g b / <alpha-value>)` with r, g, b in 0..255 read from the colour's digit pairs |

## Left out

- `mix`, the shade `curve` and `Math.round` of fractions: floating-point arithmetic. `ThemeTokens.ShadesOfColor` takes the colour of each shade as a parameter `tint`.
- ThemeTokens.ShadesOfColor: states the key set and that each entry is the given tint. It does not state the numeric colour of each shade, because that depends on the floating-point curve.
- ThemeTokens.GenerateShades: takes the colour table as a parameter instead of calling `shadesOfColor(color)` itself. `ShadeTableOfFullTable` covers the full table that `shadesOfColor` returns.
- ThemeTokens.GenerateVarShades: the five named assignments `result.base` … `result.bold` are modelled as one assignment loop over the list of named keys, in the same order. The resulting map is the same.
- `opacity()`, the `opacities` and `semanticColors` tables, the Tailwind configuration object and its plugins: these are configuration data and have no behaviour to prove.
- ColorCodec.ToHex: the components are integers, so `Math.round` is the identity. Components outside 0..255, which `mix` never produces after `clamp`, are written as given.
- ColorCodec.ParseIntHex: JavaScript numbers are modelled as unbounded integers. The loss of precision for hex runs longer than 13 digits is not modelled.
- The React lifecycle is not modelled: `useEffect` scheduling, the cleanup that removes the `load` listener, and re-rendering. Each handler is one atomic step, and each `load` event is one more call of `SyncFromIframe`.
- FrameSync.DocsFrame.SyncToIframe: setting `src` only records the new attribute. The asynchronous page load it starts is not modelled.
- FrameSync.HostToFrameIdempotent: the idempotence is of the recorded state only. In the fallback branch (no window, or a location that throws) the effect assigns `iframe.src` on every run (DocsFrame.tsx:75-77 and 84-87), and each assignment restarts the frame's navigation even when the value is unchanged. The model does not record these navigations.
- FrameSync.DocsFrame.constructor: the frame starts at `initialSrc`, its first load already committed, with each history holding one address. A frame element that has not loaded yet (still at `about:blank`, whose `location.pathname` is `blank`) is not the constructor's starting state. The functions handle such a frame, as `Address("blank", "")`, when a state is built with it.
- ColorCodec.Slice, ColorCodec.PadStart2, ColorCodec.RemoveFirst and ColorCodec.TrimStart count Dafny characters, whereas JavaScript strings count UTF-16 code units. The two differ only for characters outside the Basic Multilingual Plane, which no colour literal holds.
- `searchParams.toString()` is not modelled. The browser's `URLSearchParams` parsing and serialisation, with its percent-encoding, is the parameter `query` of `FrameToHost`, `HostToFrame` and the two `DocsFrame` methods.
- FrameSync.FrameToHostIdempotent: holds only when `query` gives the frame's search back unchanged (`Reproduces`). `FrameSync.RepeatedPush` states the other case.
- FrameSync.NoLoopFromFrame: holds only when `query` gives the frame's search back unchanged, for the same reason.
- FrameSync.NormalisingRedirect: holds only when `query` gives the frame's search back unchanged, for the same reason.
- FrameSync.NoLoopFromHost: takes the frame to have loaded the new address before `syncFromIframe` runs again. Two things in the component break that assumption, and the model fixes no order between the two effects.
  - React runs effects in declaration order, so the first effect's direct call to `syncFromIframe` (DocsFrame.tsx:55) runs before the host-to-frame effect on every host change. `FrameSync.StaleFramePushedBack` gives the result of that call.
  - The frame's load is asynchronous (see `FrameSync.HostToFrame` below).
- FrameSync.HostToFrame: `location.replace` (DocsFrame.tsx:82) moves the frame at once in the model. In the browser the frame's location changes only when the new page commits, and a `syncFromIframe` run before that still reads the old location. This asynchrony is not modelled.
- InitialSource.Serialize: writes names and values as they are. `URLSearchParams` percent-encoding is not modelled.
- The back/forward position within the histories is not modelled. The histories are the lists of entries, and the current entry is the last.
- The `await` of the request's `searchParams` is not modelled: `DocsProxy` receives the resolved entries. `sp ?? {}` corresponds to an empty entry list.
- The rendered JSX is not modelled, apart from the frame's `src={initialSrc}`, which is the constructor's argument.
- `next.config.mjs`, `icons.tsx` and `cf-fetch.ts` are not part of this model.
