# Trinity wallet: quorum selection, seed checksum label, desktop shell decisions

This project models three parts of the Trinity IOTA wallet and proves their properties in Dafny.

- **The quorum selector `getMostCommon(data, unorderedArrays)`.** It takes the responses several nodes gave to the same query. It groups them into classes of structurally equal responses and returns one response from a largest class, or `null` when there are no responses. When `unorderedArrays` is set, two lists that differ only in element order may still count as equal.
  - `responses.dfy` gives the response values and the structural equality they are grouped by.
  - `quorum.dfy` holds the grouping and the selection.
  - `quorum_fixtures.dfy` holds the five sample responses of the quorum tests and the scenarios run on them.
- **The mobile `CustomTextInput` component** (`custom_text_input.dfy`). It covers:
  - the checksum label shown beside a seed;
  - the upper-cased field label;
  - the `isFocused` state;
  - the `onRef` callback at mount and unmount.
- **Decisions the desktop main process takes.**
  - `background_color.dfy`: the main window's background colour, including the `rgb(...)` to `#rrggbb` rewrite.
  - `navigation.dfy`: the `will-navigate` guard with its external whitelist.
  - `desktop_state.dfy`: the tray icon state (`setupTray`) and the one-shot deep-link buffer.

`js_strings.dfy` holds the JavaScript string operations these parts use: `indexOf`, `replace` with a string pattern, and `toUpperCase`. `wrappers.dfy` holds `Option`. `None` stands for JavaScript `null` or `undefined`.

How the model is built:

- **Equivalence.** Structural equality is the equality of a canonical form (`Responses.Key`). With list order significant, the canonical form keeps lists in position. With list order ignored, each list becomes a multiset of canonical elements. Objects are always compared by key set and values.
- **Grouping.** It is generic over canonical keys. Classes appear in the order of their first member.
- **Selection.** The selector returns the first response whose class is largest. The tests only require that the answer belongs to a tied largest class. The model states that and also the first-occurrence rule it uses.
- **Checksum.** The checksum of a complete seed is a function parameter.
- **Navigation.** The host of a navigation target is a parameter.
- **Window existence.** Whether the wallet window exists is a field.
- **Deep links are not always forwarded once.** A link that arrives before the wallet window exists is forwarded exactly once (`DesktopState.LinkBeforeWindow`). A link that arrives while the window exists is sent at once and kept, so the next `request.deepLink` sends it again (`DesktopState.LinkWithWindowSentTwice`).
- **An undefined tray setting creates a tray.** `setupTray` creates a new tray whenever the setting is neither `false` nor `true` with a live tray. So an undefined `isTrayEnabled` (main.js:426) replaces a live tray without destroying it (`DesktopState.UndefinedSettingReplacesLiveTray`).

## Model

| member | source | states |
|---|---|---|
| Responses.OrderedRoundTrip | src/shared/__tests__/libs/iota/quorum.spec.js:104-108 | with list order significant, decoding a response's canonical form gives the response back, so the canonical form loses nothing |
| Responses.OrderedEquivalenceIsEquality | src/shared/__tests__/libs/iota/quorum.spec.js:104-108 | without `unorderedArrays`, two responses are in one class exactly when they are equal |
| Responses.UnorderedIsCoarser | src/shared/__tests__/libs/iota/quorum.spec.js:111-115 | ignoring list order only merges classes: responses equivalent with order significant stay equivalent without it |
| Responses.ScalarsDistinguished | src/shared/__tests__/libs/iota/quorum.spec.js:6-64 | null, booleans, numbers and strings are equivalent to something exactly when equal to it, in both modes (0.01 and 0.0099 stay apart) |
| Responses.ObjectEquivalence | src/shared/__tests__/libs/iota/quorum.spec.js:6-64 | objects are equivalent exactly when they have the same keys and equivalent values under every key, whatever their key order |
| Responses.EquivalentFieldsMakeEquivalentObjects | src/shared/__tests__/libs/iota/quorum.spec.js:6-64 | objects with the same keys and equivalent values under every key are equivalent |
| Responses.EquivalentObjectsHaveEquivalentFields | src/shared/__tests__/libs/iota/quorum.spec.js:6-64 | equivalent objects have the same keys and equivalent values under every key |
| Responses.OrderedListEquivalence | src/shared/__tests__/libs/iota/quorum.spec.js:97-108 | with order significant, lists are equivalent exactly when they have the same length and are equivalent position by position |
| Responses.UnorderedListEquivalence | src/shared/__tests__/libs/iota/quorum.spec.js:111-115 | with order ignored, lists are equivalent exactly when every class of elements occurs equally often in both |
| Responses.PermutedListsEquivalent | src/shared/__tests__/libs/iota/quorum.spec.js:51-79 | with order ignored, a list and any rearrangement of it are equivalent |
| Responses.KeysMultiset | src/shared/__tests__/libs/iota/quorum.spec.js:111-115 | rearranging a list rearranges its canonical elements: equal multisets of responses give equal multisets of canonical forms |
| Responses.KindPreserved | src/shared/__tests__/libs/iota/quorum.spec.js:6-64 | a list is only equivalent to a list, and an object only to an object with the same keys (`testobj` against `w` keeps `a` apart) |
| Quorum.GroupPartition | src/shared/__tests__/libs/iota/quorum.spec.js:97-115 | grouping yields a partition: each class has a member, its key and its exact count; the classes have distinct keys and appear in the order of their first members; every response lies in a class; the sizes add up to the input length |
| Quorum.InsertPreservesPartition | src/shared/__tests__/libs/iota/quorum.spec.js:97-115 | adding one response to a partition of the responses before it gives a partition of the longer list |
| Quorum.ExactlyOneClass | src/shared/__tests__/libs/iota/quorum.spec.js:97-115 | every response lies in exactly one class |
| Quorum.ClassSizesSum | src/shared/__tests__/libs/iota/quorum.spec.js:97-115 | the class sizes add up to the number of responses |
| Quorum.Best | src/shared/__tests__/libs/iota/quorum.spec.js:97-108 | the chosen class is at least as large as every class, and strictly larger than each class before it |
| Quorum.Winner | src/shared/__tests__/libs/iota/quorum.spec.js:97-108 | the chosen position holds a key of maximal count, and every earlier key has a strictly smaller count |
| Quorum.MostCommon | src/shared/__tests__/libs/iota/quorum.spec.js:81-117 | the result is null exactly for an empty input; otherwise it is an input response whose class is at least as large as the class of every input response |
| Quorum.FirstOccurrenceTieBreak | src/shared/__tests__/libs/iota/quorum.spec.js:97-101 | for a non-empty input, the result is the input response at some position, the first one whose class is largest |
| Quorum.UniqueMaximumWins | src/shared/__tests__/libs/iota/quorum.spec.js:104-108 | when one class is strictly larger than every other, the result belongs to it |
| Quorum.UniqueMaximumWinsOrdered | src/shared/__tests__/libs/iota/quorum.spec.js:104-108 | with order significant, a response occurring strictly more often than every other is itself the result |
| Quorum.MostFrequentWinsOrdered | src/shared/__tests__/libs/iota/quorum.spec.js:104-108 | with order significant, a value occurring in the input strictly more often than any other value is the result |
| Quorum.TieGoesToTiedClass | src/shared/__tests__/libs/iota/quorum.spec.js:97-101 | under a tie, the result's class has the maximal size, so no smaller class can win |
| Quorum.ResponsesPartitioned | src/shared/__tests__/libs/iota/quorum.spec.js:97-115 | every response's canonical form is the key of a class of the grouping, the class keys are pairwise distinct, so each response lies in exactly one class, and the class sizes sum to the number of responses |
| Quorum.CountKeyIsMultiplicity | src/shared/__tests__/libs/iota/quorum.spec.js:97-115 | the count of a key is its multiplicity in the list of keys |
| Quorum.CountIsKeyMultiplicity | src/shared/__tests__/libs/iota/quorum.spec.js:97-115 | a response's count is the multiplicity of its canonical form among the responses' canonical forms |
| Quorum.CountOrderedIsMultiplicity | src/shared/__tests__/libs/iota/quorum.spec.js:104-108 | with order significant, a response's count is its multiplicity in the input |
| QuorumFixtures.SamplesDistinct | src/shared/__tests__/libs/iota/quorum.spec.js:6-79 | the sample responses `a` to `e` are pairwise different |
| QuorumFixtures.DEquivalentUnordered | src/shared/__tests__/libs/iota/quorum.spec.js:51-79 | with list order ignored, `d` and `e` (its `test` list reversed) are equivalent |
| QuorumFixtures.FieldsSeparate | src/shared/__tests__/libs/iota/quorum.spec.js:6-64 | objects whose values under a shared key are not equivalent are not equivalent |
| QuorumFixtures.PairsSeparate | src/shared/__tests__/libs/iota/quorum.spec.js:6-64 | two-element lists with the same first element and second elements of different classes stay apart with order ignored |
| QuorumFixtures.SamplesApartUnordered | src/shared/__tests__/libs/iota/quorum.spec.js:6-64 | with order ignored, `a`, `b`, `c` and `d` stay four classes: a differing key, a differing nested flag, a differing nested number |
| QuorumFixtures.TestobjSeparates | src/shared/__tests__/libs/iota/quorum.spec.js:6-64 | only `a` has the key `testobj`, so it is apart from `b`, `c` and `d` |
| QuorumFixtures.TestListsApart | src/shared/__tests__/libs/iota/quorum.spec.js:6-64 | with order ignored, the `test` lists of `b`, `c` and `d` are pairwise apart |
| QuorumFixtures.InnersApart | src/shared/__tests__/libs/iota/quorum.spec.js:6-64 | the inner objects of `b`, `c` and `d` are pairwise apart and apart from the nested object |
| QuorumFixtures.EmptyScenario | src/shared/__tests__/libs/iota/quorum.spec.js:83-88 | an empty input gives null |
| QuorumFixtures.NoDuplicatesScenario | src/shared/__tests__/libs/iota/quorum.spec.js:90-95 | `[a, b, c, d, e]` gives one of its elements |
| QuorumFixtures.TieScenario | src/shared/__tests__/libs/iota/quorum.spec.js:97-102 | `[a, b, c, d, b, e, a]` gives `a` or `b` |
| QuorumFixtures.TieOfTwo | src/shared/__tests__/libs/iota/quorum.spec.js:97-102 | for any five distinct responses in that arrangement, the result is one of the two that occur twice |
| QuorumFixtures.TieCounts | src/shared/__tests__/libs/iota/quorum.spec.js:97-102 | in that arrangement `a` occurs twice and only `a` and `b` occur twice or more |
| QuorumFixtures.UniqueMaximumScenario | src/shared/__tests__/libs/iota/quorum.spec.js:104-109 | `[a, b, c, d, e, b, a, e, d, d, d, a, e, d]` gives `d` |
| QuorumFixtures.FiveOfD | src/shared/__tests__/libs/iota/quorum.spec.js:104-109 | for any five distinct responses in that arrangement, the one occurring five times is the result |
| QuorumFixtures.FiveOfDCounts | src/shared/__tests__/libs/iota/quorum.spec.js:104-109 | in that arrangement `d` occurs five times and every other value fewer times |
| QuorumFixtures.FiveOfDMultiplicities | src/shared/__tests__/libs/iota/quorum.spec.js:104-109 | in that arrangement `a`, `b`, `c`, `d` and `e` occur 3, 2, 1, 5 and 3 times |
| QuorumFixtures.UnorderedScenario | src/shared/__tests__/libs/iota/quorum.spec.js:111-116 | `[a×3, b×3, c×3, d×2, e×2]` with order ignored gives `d` or `e` |
| QuorumFixtures.MergedPairWins | src/shared/__tests__/libs/iota/quorum.spec.js:111-116 | when `d` and `e` are equivalent and the other three classes are apart, the merged class of four wins |
| QuorumFixtures.ClassOfD | src/shared/__tests__/libs/iota/quorum.spec.js:111-116 | among that scenario's responses only `d` and `e` are equivalent to `d` |
| QuorumFixtures.LargestClassWins | src/shared/__tests__/libs/iota/quorum.spec.js:111-116 | when the canonical forms show one class larger than every other, the result is equivalent to its members |
| JsStrings.IndexOf | src/desktop/main.js:256 | the result is -1 exactly when the pattern occurs nowhere; otherwise it is a position where it occurs, with no occurrence before it |
| JsStrings.IndexOfZeroIsPrefix | src/desktop/main.js:110 | `indexOf(p) === 0` holds exactly when `p` is a prefix |
| JsStrings.ReplaceFirst | src/desktop/main.js:262 | a string pattern is replaced at its first occurrence only, and the string is unchanged if the pattern is absent |
| JsStrings.ReplaceFirstUndone | src/desktop/main.js:262 | putting the removed pattern back where it first occurred restores the string |
| JsStrings.ToUpperCase | src/mobile/__tests__/ui/components/CustomTextInput.spec.js:100-110 | each character becomes its upper-case form, and the length is kept |
| JsStrings.ToUpperCaseNormalises | src/mobile/__tests__/ui/components/CustomTextInput.spec.js:100-110 | no lower-case letter survives upper-casing, and upper-casing twice is upper-casing once |
| CustomTextInput.Classify | src/mobile/__tests__/ui/components/CustomTextInput.spec.js:250-293 | every seed is empty, has a character outside A-Z and 9, or is valid and shorter than, exactly or longer than 81; each case is characterised in both directions |
| CustomTextInput.ChecksumValue | src/mobile/__tests__/ui/components/CustomTextInput.spec.js:250-293 | the label is always `...`, `!`, `< 81` or the seed's checksum |
| CustomTextInput.InvalidCharacterWinsOverLength | src/mobile/__tests__/ui/components/CustomTextInput.spec.js:251-260 | any seed with a character outside A-Z and 9 gets `!`, whatever its length |
| CustomTextInput.LabelsTellCasesApart | src/mobile/__tests__/ui/components/CustomTextInput.spec.js:250-293 | when checksums are three trytes, the label is the checksum exactly for a complete seed, `!` exactly for an invalid seed, `< 81` exactly for a short valid seed, and `...` exactly for an empty or over-long seed |
| CustomTextInput.ChecksumTestVectors | src/mobile/__tests__/ui/components/CustomTextInput.spec.js:250-293 | `-!` gives `!`, 80 `A`s give `< 81`, 81 nines give their checksum, and the empty seed gives `...` |
| CustomTextInput.Repeat | src/mobile/__tests__/ui/components/CustomTextInput.spec.js:262-282 | `c.repeat(n)` has length `n` and holds `c` at every position |
| CustomTextInput.LabelText | src/mobile/__tests__/ui/components/CustomTextInput.spec.js:100-110 | the label text is the `label` prop with every character upper-cased |
| CustomTextInput.LabelTestVector | src/mobile/__tests__/ui/components/CustomTextInput.spec.js:100-110 | `foo` is shown as `FOO` |
| CustomTextInput.RefCallback.constructor | src/mobile/__tests__/ui/components/CustomTextInput.spec.js:172-196 | a fresh `onRef` mock has received nothing |
| CustomTextInput.RefCallback.Call | src/mobile/__tests__/ui/components/CustomTextInput.spec.js:172-196 | each call is recorded after the earlier ones |
| CustomTextInput.TextInput.constructor | src/mobile/__tests__/ui/components/CustomTextInput.spec.js:204-214 | a new component keeps its props and starts unfocused |
| CustomTextInput.TextInput.OnFocus | src/mobile/__tests__/ui/components/CustomTextInput.spec.js:204-214 | `onFocus` sets `isFocused` |
| CustomTextInput.TextInput.OnBlur | src/mobile/__tests__/ui/components/CustomTextInput.spec.js:216-227 | `onBlur` clears `isFocused` |
| CustomTextInput.TextInput.ComponentDidMount | src/mobile/__tests__/ui/components/CustomTextInput.spec.js:172-183 | mounting calls `onRef`, when given, with the instance |
| CustomTextInput.TextInput.ComponentWillUnmount | src/mobile/__tests__/ui/components/CustomTextInput.spec.js:185-196 | unmounting calls `onRef`, when given, with `null` |
| CustomTextInput.MountThenUnmount | src/mobile/__tests__/ui/components/CustomTextInput.spec.js:172-196 | over a mount and an unmount, `onRef` receives the instance and then `null`, and nothing else |
| CustomTextInput.FocusThenBlur | src/mobile/__tests__/ui/components/CustomTextInput.spec.js:297-334 | focusing sets `isFocused`, and blurring afterwards clears it |
| BackgroundColor.ThemeBackground | src/desktop/main.js:108 | the colour is the theme's body background when it is a non-empty string, and `rgb(3, 41, 62)` otherwise; it is never empty |
| BackgroundColor.LeadingDigits | src/desktop/main.js:111 | the leading run of digits is as long as possible |
| BackgroundColor.DigitRuns | src/desktop/main.js:111 | every run `match(/[0-9]+/g)` yields is a non-empty string of digits |
| BackgroundColor.RunsCoverDigits | src/desktop/main.js:111 | the runs, joined, are exactly the digits of the colour in order |
| BackgroundColor.RunThenRest | src/desktop/main.js:111 | a run of digits followed by a non-digit or by nothing is the first run |
| BackgroundColor.NoDigitsNoRuns | src/desktop/main.js:111 | characters that are not digits contribute no run |
| BackgroundColor.Signed | src/desktop/main.js:111 | a 32-bit pattern read as signed lies in the signed range and has that bit pattern |
| BackgroundColor.Or256 | src/desktop/main.js:111 | `n` OR 256 is a signed 32-bit integer whose bit 8 is set and whose other bits are those of `n` modulo 2^32 |
| BackgroundColor.EncodeRunsFlattens | src/desktop/main.js:111 | for any number of runs, the reduction is `#` followed by `(b OR 256).toString(16).slice(1)` of every run `b`, left to right |
| BackgroundColor.ReduceFlattens | src/desktop/main.js:111 | the left fold from `#` that appends each text is `#` followed by all texts in order |
| BackgroundColor.WindowBackground | src/desktop/main.js:108-112 | a colour not starting with `rgb` is kept as it is; one starting with `rgb` has no result exactly when it holds no digit, and otherwise becomes a `#` colour |
| BackgroundColor.ComponentIsHexByte | src/desktop/main.js:111 | a component from 0 to 255 becomes exactly its two lower-case hex digits |
| BackgroundColor.Or256OfByte | src/desktop/main.js:111 | below 256, `b` OR 256 is `b + 256` |
| BackgroundColor.HexAbove256 | src/desktop/main.js:111 | `b + 256` in hex is `1` followed by the two hex digits of `b` |
| BackgroundColor.HexByteRoundTrip | src/desktop/main.js:111 | the two hex digits of a byte read back as the byte |
| BackgroundColor.EncodeSnoc | src/desktop/main.js:111 | the reduction appends one component's hex text per run |
| BackgroundColor.EncodeThree | src/desktop/main.js:111 | three runs become `#` followed by their three hex texts |
| BackgroundColor.EncodeThreeBytes | src/desktop/main.js:111 | three components from 0 to 255 become `#` followed by their hex digits |
| BackgroundColor.RgbRuns | src/desktop/main.js:111 | the digit runs of `rgb(r, g, b)` are `r`, `g` and `b` |
| BackgroundColor.RgbTailRuns | src/desktop/main.js:111 | the digit runs of `g, b)` are `g` and `b` |
| BackgroundColor.RgbBecomesHex | src/desktop/main.js:110-111 | `rgb(r, g, b)` with components from 0 to 255 becomes `#rrggbb` |
| BackgroundColor.RgbColourEncoded | src/desktop/main.js:110-111 | any colour starting with `rgb` whose decimal runs are bytes, whatever its spacing or its number of runs (`rgb(3,41,62)`, `rgba(...)`), becomes `#` followed by two hex digits per run |
| BackgroundColor.HexBytes | src/desktop/main.js:111 | the two hex digits of each byte run, in order |
| BackgroundColor.RgbRoundTrip | src/desktop/main.js:110-111 | the `#rrggbb` colour reads back as the three components |
| BackgroundColor.HexColourRoundTrip | src/desktop/main.js:110-111 | `#` and the hex digits of three bytes read back as those bytes |
| BackgroundColor.SameColourSameWindow | src/desktop/main.js:108-112 | the window colour depends on the settings only through the theme colour they yield |
| BackgroundColor.DefaultIsDarkBlue | src/desktop/main.js:108-111 | without a theme colour the window is `#03293e` |
| BackgroundColor.HexColourKept | src/desktop/main.js:110 | a `#` colour from the theme is used as it is |
| Navigation.StripWww | src/desktop/main.js:262 | a leading `www.` is dropped and any other host is kept |
| Navigation.WillNavigateAsWritten | src/desktop/main.js:255-266 | navigation goes ahead exactly when the target is a prefix of the wallet URL; a blocked target is opened when its host, with its first `www.` removed, is whitelisted |
| Navigation.WillNavigate | src/desktop/main.js:255-266 | navigation goes ahead exactly when the target is a prefix of the wallet URL; a blocked target is opened exactly when its host is a whitelisted domain or its `www.` form |
| Navigation.OpensExactlyAllowedHosts | src/desktop/main.js:259-262 | dropping a leading `www.` and looking the rest up in the whitelist accepts exactly the four domains and their `www.` forms |
| Navigation.WhitelistedHostStripped | src/desktop/main.js:259-262 | every allowed host, with a leading `www.` dropped, is in the whitelist |
| Navigation.StrippedHostAllowed | src/desktop/main.js:259-262 | a host whose `www.`-stripped form is whitelisted is a whitelisted domain or its `www.` form |
| Navigation.NotAt | src/desktop/main.js:262 | a pattern does not occur where the character differs from its first one |
| Navigation.OwnUrlProceeds | src/desktop/main.js:167 | the wallet's own URL, and every prefix of it, is never blocked |
| Navigation.LongerUrlBlocked | src/desktop/main.js:256 | any target that strictly extends the wallet URL is blocked |
| Navigation.InnerWwwOpenedAsWritten | src/desktop/main.js:262 | the host `iota.www.org` is not an allowed host, yet the guard as written opens it |
| Navigation.InnerWwwFirstAt5 | src/desktop/main.js:262 | the first `www.` in `iota.www.org` starts at position 5 |
| Navigation.VersionsAgreeOnOrdinaryHosts | src/desktop/main.js:262 | stripping the first `www.` and stripping a leading `www.` agree on hosts that start with `www.` or hold none |
| DesktopState.TrayDecision | src/desktop/main.js:279-291 | the tray is destroyed exactly when it is disabled and live; a new one is created exactly when it is not disabled and not both enabled and live |
| DesktopState.TrayFollowsSetting | src/desktop/main.js:279-291 | after `setupTray(enabled)` a tray is live exactly when `enabled` is not `false` |
| DesktopState.EnableTwiceCreatesOnce | src/desktop/main.js:287-289 | a second `setupTray(true)` finds the tray live and keeps it |
| DesktopState.TrayIcon.constructor | src/desktop/main.js:291 | a new tray is not destroyed |
| DesktopState.TrayIcon.Destroy | src/desktop/main.js:282 | destroying marks the tray destroyed |
| DesktopState.TrayHolder.constructor | src/desktop/main.js:43 | no tray at start |
| DesktopState.TrayHolder.SetupTray | src/desktop/main.js:279-296 | afterwards a tray is live exactly when not disabled; a fresh tray exactly when the decision is to create; otherwise the same tray, left untouched unless destroyed |
| DesktopState.DeepLinkRelay.constructor | src/desktop/main.js:41 | no stored link and nothing sent at start |
| DesktopState.DeepLinkRelay.SetMainWindow | src/desktop/main.js:395 | the window's existence changes and nothing else |
| DesktopState.DeepLinkRelay.OpenUrl | src/desktop/main.js:392-398 | the link is stored, and sent at once exactly when the window exists |
| DesktopState.DeepLinkRelay.RequestDeepLink | src/desktop/main.js:403-408 | a stored non-empty link is sent once and cleared when the window exists; otherwise nothing changes; with the window there, no link is pending afterwards |
| DesktopState.LinkBeforeWindow | src/desktop/main.js:392-408 | a link arriving before the window is delivered once on request, and a second request sends nothing |
| DesktopState.LinkWithWindowSentTwice | src/desktop/main.js:392-408 | a link arriving while the window exists is sent at once and sent again on the next request |
| DesktopState.EmptyLinkNeverForwarded | src/desktop/main.js:404 | an empty link is never forwarded on request |
| DesktopState.EnableEnableDisable | src/desktop/main.js:279-296 | enabling twice and then disabling creates one tray and leaves it destroyed |
| DesktopState.UndefinedSettingReplacesLiveTray | src/desktop/main.js:279-296 | an undefined setting after an enabled one creates a second tray and leaves the first one live |

## Findings

| source | as written | input that shows it | evidently intended | confidence | as-written member | corrected member |
|---|---|---|---|---|---|---|
| src/desktop/main.js:262 | `host.replace('www.', '')` removes the first `www.` anywhere in the host before the whitelist lookup | a link to `http://iota.www.org/`, whose host `iota.www.org` becomes `iota.org` | drop only a leading `www.`, so that only the four domains and their `www.` forms are opened externally | medium, not executed | Navigation.InnerWwwOpenedAsWritten (about Navigation.WillNavigateAsWritten) | Navigation.WillNavigate with Navigation.OpensExactlyAllowedHosts |

## Left out

- The implementation of `getMostCommon` (`src/shared/libs/iota/quorum.js`) is not part of this model. The model follows what its tests require.
- Quorum.MostCommon: ties between largest classes go to the first class, counted by first member. The tests only require one of the tied classes, and `Quorum.TieGoesToTiedClass` states that weaker promise.
- Quorum.MostCommon: the result is a response equal to an input response, not the same JavaScript object.
- Node query dispatch, per-node timeouts, cancellation and the `minResponses`/`minAgreement` thresholds are left out. They are concurrency and configuration around the selector, and no shown code contains them.
- Responses.Key: numbers are exact values compared for equality. Floating-point arithmetic is not modelled.
- The `CustomTextInput` component (`src/mobile/ui/components/CustomTextInput.js`) is not part of this model. The model follows its tests.
- The seed checksum algorithm is a function parameter, so the expected `KZW` for 81 nines is not derived.
- CustomTextInput.ChecksumValue: the tests do not pin down a valid seed longer than 81. The model keeps the initial `...` for it.
- JsStrings.ReplaceFirst: the replacement is taken literally. JavaScript expands `$&`, `$$`, `` $` `` and `$'` in it; the model does not, and it is only applied with an empty replacement.
- JsStrings.ToUpperCase: upper-cases ASCII letters only. Unicode case mapping is not modelled.
- Left out from `CustomTextInput`:
  - `getChecksumStyle` (CustomTextInput.spec.js:230-248), because it is styling;
  - the propTypes checks and render and press-routing tests (22-167, 336-349), because they are UI wiring.
- BackgroundColor.DecimalValue: digit runs are read as exact integers. JavaScript reads them as doubles, which round runs whose value exceeds 2^53. That rounding is not modelled.
- BackgroundColor.ThemeBackground: a theme without a `body` throws in JavaScript. That case is not modelled; the theme colour is a parameter.
- Navigation.WillNavigate: `URL.parse` is replaced by a host parameter. `None` stands for a URL without a host, where the lookup throws and nothing is opened.
- DesktopState.TrayHolder.SetupTray: the tray only exists on macOS (main.js:269-272), and `settings.isTrayEnabled` arrives as `enabled`. The platform check is not modelled.
- `toggleTray`, which positions the tray window with float division and rounding (main.js:298-313), is left out.
- DesktopState.DeepLinkRelay: whether the wallet window exists is a field. Which renderer sends `request.deepLink` is not modelled.
- Left out from main.js as Electron plumbing without decisions of their own:
  - window and tray-window creation;
  - IPC forwarding other than deep links;
  - protocol registration;
  - window-state persistence;
  - developer tools;
  - the screenshot writer.
- `src/mobile/containers/login.js` is not modelled. It is UI with an asynchronous keychain callback, and its only decision is an empty-password check.
