# Short-video feed viewer: a verified model of its event-driven core

The app shows a vertical feed of videos. A drag with the mouse or a finger
pages to the next or previous video, an intersection observer plays the
video that comes into view and pauses the ones that leave it, and each
video card carries a mute toggle, press-to-play, like/save counters, a share
popup and (unused by the app) a profile panel. This project models that core
in Dafny and proves what its handlers promise.

Modules, one per source file, plus two shared ones:

- `Js` (`js.dfy`): the JavaScript built-ins the components lean on —
  truthiness of string props, `\w`, `String.prototype.trim`, integer
  `toString`, and `parseInt` without a radix (white space, sign, `0x`
  prefix, longest digit run, NaN).
- `Media` (`media.dfy`): the `<video>` element as a class with `muted` and
  `paused`.
- `Feed` (`feed.dfy`, `src/App.js`): the app as a class. Its fields are the
  feed, the registry of mounted elements (a sequence with holes), the
  current index, the elements asked to scroll into view, and a separate
  `DragState` object for `dragState.current`. The mouse and touch handlers,
  `scrollToVideo`, `handleVideoRef` and the intersection handler are methods,
  each specified by the pure functions `ReleaseNavigation`, `ReleaseTarget`,
  `IndexOf`, `Store` and `BatchIndex`.
- `Profile` (`profile.dfy`, `src/components/UserProfile.jsx`): the matches of
  `/#\w+/g` as spans, hashtag extraction, the bio text, `formatNumber` below
  1000, and a class for the key, follow and tab state.
- `Footer` (`footer.dfy`, `src/components/FooterRight.jsx`): the like/save
  counters as functions and a class for `liked`, `saved`, the share popup and
  the clipboard requests.
- `Navbar` (`navbar.dfy`, `src/components/TopNavbar.jsx`): the search box as a
  class whose Enter handler reports the TypeError thrown when no `onSearch`
  prop is given (the app passes none).
- `Card` (`card.dfy`, `src/components/VideoCard.jsx`): the card as a class
  holding its element, forwarding the ref into the app's registry.

The main results:

- A release navigates to the next video exactly when `startY - currentY > 50`.
  It navigates to the previous one exactly when that distance is `< -50`.
  Any release, touch end or leave ends the session. Move, release and leave
  change nothing when no session is active.
- `scrollToVideo` acts only on an index inside the feed whose element is
  registered. So paging past either end changes nothing. The index stays
  inside the feed.
- In an intersection batch, the last visible entry whose element is in the
  registry sets the index to the element's first registry position. With no
  such entry the index stays. Entries about elements leaving the view never
  move it. Every reported element ends playing or paused according to the
  last entry about it.
- Hashtags are whole, greedy `#\w+` matches, left to right and
  non-overlapping; every `#` followed by a word character starts one that is
  extracted, and there are none exactly when no such `#` occurs. The bio text
  is the text between the matches, trimmed: it has no white space at either
  end and never contains `#` followed by a word character.
- `parseInt(n.toString()) == n` for every integer `n` with |n| < 10^21 (the model's integers are unbounded). `parseInt` reads the
  leading decimal digits, so the sample likes "13.4K" (upper-case K, which
  the lower-case "k" check misses) display as 13, or 14 once liked.

The drag session tracks only Y and has no horizontal gesture; a second press
during a drag restarts the session. An element entering view is looked up
in the registry with `indexOf`, so the first registry position holding it
becomes current.

## Model

| member | source | states |
|---|---|---|
| `Feed.ReleaseNavigation` | src/App.js:141-150 | next exactly when the drag distance exceeds 50, previous exactly when it is below -50, no navigation for a distance in [-50, 50] |
| `Feed.ReleaseTarget` | src/App.js:144-150 | the index a release passes to `scrollToVideo`: current+1, current-1, or none, by the same threshold |
| `Feed.IndexOf` | src/App.js:86-89 | -1 exactly when the element is not in the registry, otherwise the first position holding it |
| `Feed.Store` | src/App.js:111-113 | writing slot `index` sets that slot, grows the array with holes when needed, and leaves every other slot as it was |
| `Feed.NoFoundEntryKeepsIndex` | src/App.js:81-94 | a batch without a visible, registered entry leaves the current index unchanged |
| `Feed.LastFoundEntryWins` | src/App.js:81-94 | the last visible entry found in the registry decides the index: its element's first registry position |
| `Feed.BatchIndexInRegistry` | src/App.js:86-89 | a batch leaves the index as it was or moves it to an occupied registry slot |
| `Feed.ExitedEntryKeepsIndex` | src/App.js:90-93 | an exit entry at the end of a batch leaves the index as it was |
| `Feed.ExitedEntryAnywhereKeepsIndex` | src/App.js:81-94 | an exit entry anywhere in a batch leaves the index as it was |
| `Feed.BatchIndex` | src/App.js:81-94 | the index after a batch is the old one or the first registry position of a visible, found entry |
| `Feed.LastVisibility` | src/App.js:81-94 | no last report only for an element that no entry is about |
| `Feed.LastVisibilityIsLastReport` | src/App.js:81-94 | the last report is the visibility of an entry about the element that no later entry about it follows |
| `Feed.TargetHasLastVisibility` | src/App.js:81-94 | every element a batch reports on has a last report that decides whether it plays |
| `Feed.DragState.constructor` | src/App.js:62-66 | the drag session starts inactive at 0, 0 |
| `Feed.App.constructor` | src/App.js:56-66 | the first render: empty feed, empty registry, index 0, no drag |
| `Feed.App.LoadFeed` | src/App.js:68-70 | the mount effect replaces the empty feed with the loaded list and keeps the invariant |
| `Feed.App.HandleVideoRef` | src/App.js:111-113 | the registry becomes `Store(old registry, index, ref)`; nothing else changes |
| `Feed.App.ScrollToVideo` | src/App.js:116-121 | selects and requests a scroll to `index` only when it is inside the feed and registered; otherwise nothing changes; the index stays in the feed |
| `Feed.App.MouseDown` | src/App.js:124-131 | starts a session with `startY = currentY = clientY`; X is ignored |
| `Feed.App.MouseMove` | src/App.js:133-136 | updates `currentY` only during a session; with no session nothing changes |
| `Feed.App.MouseUp` | src/App.js:138-153 | with no session nothing changes; otherwise the release target is passed to `scrollToVideo`, and the session always ends |
| `Feed.App.MouseLeave` | src/App.js:155-159 | the same result as a release, and a no-op without a session |
| `Feed.App.TouchStart` | src/App.js:162-166 | starts a session at the first touch's Y |
| `Feed.App.TouchMove` | src/App.js:168-171 | updates `currentY` from the first touch only during a session |
| `Feed.App.TouchEnd` | src/App.js:173-175 | the same release as the mouse's |
| `Feed.App.HandleIntersection` | src/App.js:80-95 | the index becomes `BatchIndex` of the batch; each reported element is paused exactly when the last entry about it is not intersecting; mute flags, feed and registry unchanged |
| `Feed.PressThenRelease` | src/App.js:124-153 | a press followed by a release with no move never navigates and ends the session |
| `Feed.DragPastEnd` | src/App.js:116-121 | dragging up at the last video or down at the first changes neither the index nor the scroll requests |
| `Media.MediaElement.constructor` | src/components/VideoCard.jsx:54-64 | the mounted element is paused and muted as its attribute says |
| `Media.MediaElement.Play` | src/App.js:84 | the element plays; its mute flag is untouched |
| `Media.MediaElement.Pause` | src/App.js:92 | the element is paused; its mute flag is untouched |
| `Profile.WordRunEnd` | src/components/UserProfile.jsx:48 | the end of the maximal run of word characters, so `\w+` is greedy |
| `Profile.MatchesFrom` | src/components/UserProfile.jsx:48 | every match is `#` and one or more word characters not followed by one; matches are ordered and do not overlap; none exactly when no `#` is followed by a word character; that none is skipped is `MatchesCoverEveryTag` |
| `Profile.MatchesCoverEveryTag` | src/components/UserProfile.jsx:48 | every `#` followed by a word character lies inside one of the matches, so no tag is skipped |
| `Profile.EveryTagIsExtracted` | src/components/UserProfile.jsx:46-50 | every `#` followed by a word character starts an extracted tag made of it and the whole word run after it |
| `Profile.ExtractHashtags` | src/components/UserProfile.jsx:46-50 | `[]` for an absent or empty description; otherwise the text of each match in order, each a hashtag |
| `Profile.BioText` | src/components/UserProfile.jsx:89 | `""` for a falsy description; otherwise the text between the matches, concatenated and trimmed, with no white space at either end and no `#` followed by a word character |
| `Profile.RemoveTagsFrom` | src/components/UserProfile.jsx:89 | deleting the matches never lengthens the text |
| `Profile.RemoveTagsIsBetween` | src/components/UserProfile.jsx:89 | deleting every match leaves exactly the text between consecutive matches, in order |
| `Profile.RemoveTagsFirstNotWord` | src/components/UserProfile.jsx:89 | after deleting the matches, a non-word position is followed by no word character |
| `Profile.RemoveTagsLeavesNoTagStart` | src/components/UserProfile.jsx:89 | deleting greedy matches leaves no `#` followed by a word character |
| `Profile.NoTagStartTrim` | src/components/UserProfile.jsx:89 | trimming keeps that property |
| `Profile.NoTagStartSuffix` | src/components/UserProfile.jsx:89 | dropping a prefix keeps the no-hashtag-start property |
| `Profile.NoTagStartPrefix` | src/components/UserProfile.jsx:89 | dropping a suffix keeps the no-hashtag-start property |
| `Profile.SampleMatches` | src/components/UserProfile.jsx:46-50 | the hashtag pattern finds exactly the span 4..7 in "nvm #ai" |
| `Profile.SampleHashtags` | src/components/UserProfile.jsx:46-50 | "nvm #ai" yields `["#ai"]` |
| `Profile.SampleBioText` | src/components/UserProfile.jsx:89 | "nvm #ai" yields the bio "nvm" |
| `Profile.SampleRemoveTags` | src/components/UserProfile.jsx:89 | removing the hashtags of "nvm #ai" leaves "nvm " |
| `Profile.SampleTrim` | src/components/UserProfile.jsx:89 | trimming "nvm " gives "nvm" |
| `Profile.FormatNumber` | src/components/UserProfile.jsx:39-43 | None exactly at 1000 and above; below 1000 the plain decimal string `DecimalString(n)`, which `parseInt` reads back as the number |
| `Profile.TabName` | src/components/UserProfile.jsx:177-196 | every tab button sets one of "videos", "liked", "saved" |
| `Profile.UserProfile.constructor` | src/components/UserProfile.jsx:28-29 | starts on the "videos" tab, not following |
| `Profile.UserProfile.SetVisible` | src/components/UserProfile.jsx:79-86 | a new `isVisible` attaches or detaches the key listener and changes nothing else |
| `Profile.UserProfile.KeyDown` | src/components/UserProfile.jsx:72-86 | `onClose` is called exactly for ArrowLeft and Escape while visible, never while hidden |
| `Profile.UserProfile.ToggleFollow` | src/components/UserProfile.jsx:144 | flips `isFollowing` only |
| `Profile.UserProfile.SelectTab` | src/components/UserProfile.jsx:177-196 | from any state, sets the tab to one of the three names |
| `Profile.FollowTwice` | src/components/UserProfile.jsx:144 | two follow clicks restore `isFollowing` |
| `Js.TrimStart` | src/components/UserProfile.jsx:89 | removes exactly the longest white-space prefix |
| `Js.TrimEnd` | src/components/UserProfile.jsx:89 | removes exactly the longest white-space suffix |
| `Js.Trim` | src/components/TopNavbar.jsx:37 | the slice of the input between a white-space prefix and a white-space suffix, with no white space at either end; empty exactly when the input is all white space |
| `Js.DecimalString` | src/components/UserProfile.jsx:42 | a minus sign exactly for a negative number, then decimal digits |
| `Js.ParseInt` | src/components/FooterRight.jsx:42 | text of nothing but white space gives NaN; a number needs a decimal digit in the text |
| `Js.ParseIntSkipsWhiteSpace` | src/components/FooterRight.jsx:42 | white space in front of the text does not change what `parseInt` reads |
| `Js.NatString` | src/components/UserProfile.jsx:42 | one or more decimal digits with no leading zero |
| `Js.DigitPrefix` | src/components/FooterRight.jsx:42 | the longest prefix of digits of the radix |
| `Js.NatStringValue` | src/components/UserProfile.jsx:42 | the digits of `n` denote `n` |
| `Js.ParseIntOfDecimalString` | src/components/FooterRight.jsx:42 | `parseInt(n.toString()) == n` for every integer of the model, which for JavaScript numbers means every integer with |n| < 10^21 |
| `Js.ParseIntUnsigned` | src/components/FooterRight.jsx:42 | `parseInt` of text with no leading white space or sign is its unsigned reading |
| `Js.ParseIntNegative` | src/components/FooterRight.jsx:42 | a leading "-" negates the unsigned reading of the rest |
| `Js.ParseIntLeadingDigits` | src/components/FooterRight.jsx:42 | `parseInt` reads the leading decimal digits and stops at the first non-digit |
| `Js.DigitPrefixSplit` | src/components/FooterRight.jsx:42 | the digit run of digits followed by a non-digit is exactly those digits |
| `Footer.ParseLikesCount` | src/components/FooterRight.jsx:39-45 | a number is returned unchanged; a string not ending in "k" gets `parseInt` semantics |
| `Footer.FormatLikesCount` | src/components/FooterRight.jsx:47-50 | a count below 10000, or NaN, is returned unchanged |
| `Footer.DisplayedLikes` | src/components/FooterRight.jsx:91-92 | the parsed count plus 1 exactly when liked, below 10000; NaN stays NaN |
| `Footer.LikeAddsOne` | src/components/FooterRight.jsx:91-92 | liking shows exactly one more than not liking |
| `Footer.UpperCaseKiloParsesLeadingDigits` | src/components/FooterRight.jsx:39-45 | the sample likes "13.4K" parse to 13 and display 13, or 14 when liked |
| `Footer.DisplayedSaves` | src/components/FooterRight.jsx:153 | `saves + 1` exactly when saved: a number plus one, or a string with "1" appended |
| `Footer.FooterRight.constructor` | src/components/FooterRight.jsx:32-36 | not liked, not saved, popup closed |
| `Footer.FooterRight.LikeClick` | src/components/FooterRight.jsx:53 | flips `liked` only |
| `Footer.FooterRight.SaveClick` | src/components/FooterRight.jsx:55-69 | flips `saved`; a clipboard write of the URL is requested only on becoming saved with a truthy URL |
| `Footer.FooterRight.ShareClick` | src/components/FooterRight.jsx:76-78 | opens the share popup |
| `Footer.FooterRight.CloseSharePopup` | src/components/FooterRight.jsx:80-82 | closes the share popup |
| `Footer.FooterRight.ShareOption` | src/components/FooterRight.jsx:84-88 | any share target closes the popup |
| `Footer.LikeTwice` | src/components/FooterRight.jsx:53 | two like clicks restore `liked` and the displayed likes |
| `Footer.SaveTwice` | src/components/FooterRight.jsx:55-69 | from either state, two save clicks restore `saved` and the displayed saves, with exactly one clipboard request when the URL is truthy and none otherwise |
| `Navbar.SearchRequest` | src/components/TopNavbar.jsx:35-39 | Enter submits something exactly when the input has a non-white-space character, and then submits the trimmed text |
| `Navbar.TopNavbar.constructor` | src/components/TopNavbar.jsx:6-8 | input hidden and empty |
| `Navbar.TopNavbar.SyncSearchQuery` | src/components/TopNavbar.jsx:19-24 | a truthy query fills and shows the input; a falsy one changes nothing |
| `Navbar.TopNavbar.SearchClick` | src/components/TopNavbar.jsx:26-28 | shows the input and keeps its text |
| `Navbar.TopNavbar.InputChange` | src/components/TopNavbar.jsx:30-32 | the text becomes exactly the new value |
| `Navbar.TopNavbar.CloseSearch` | src/components/TopNavbar.jsx:45-51 | hides and clears the input; calls `onClearSearch` only when it is given |
| `Navbar.TopNavbar.KeyDown` | src/components/TopNavbar.jsx:34-43 | Enter calls `onSearch` once with the trimmed text when some is left, changes nothing otherwise, and throws when `onSearch` is missing; Escape closes; other keys change nothing |
| `Card.VideoCard.constructor` | src/components/VideoCard.jsx:21-22 | no element yet, `isMuted` true |
| `Card.VideoCard.SetRef` | src/components/VideoCard.jsx:57-60 | the element stored locally is the one written to the app's registry slot |
| `Card.VideoCard.AutoplayEffect` | src/components/VideoCard.jsx:25-29 | plays the element exactly when `autoplay` is set and an element is mounted |
| `Card.VideoCard.MuteToggle` | src/components/VideoCard.jsx:32-37 | flips the element's `muted` and leaves `isMuted` equal to it; no element, no change |
| `Card.VideoCard.VideoPress` | src/components/VideoCard.jsx:40-48 | plays a paused element, pauses a playing one; no element, no change |
| `Card.MountCard` | src/App.js:193-208 | a mounted card is muted in step with its element, is in the registry, and plays only at position 0 |
| `Card.MuteTwice` | src/components/VideoCard.jsx:32-37 | two mute toggles restore `muted` and `isMuted` |

## Left out

- The intersection observer itself is not modelled: the 0.8 threshold, the root margin, `observe` and `disconnect` (src/App.js:72-108). A batch of (element, intersecting) entries is an input to `HandleIntersection`.
- Smooth scrolling is not modelled. `scrollIntoView` is recorded as an entry in `scrollRequests`.
- Media.MediaElement.Play: always starts the element. The runtime can refuse `play()` under an autoplay policy, and that path is not modelled. The swallowing `.catch` of the autoplay effect therefore has nothing to swallow here.
- `preventDefault` on mouse down and on Enter is not modelled, because browser default actions are outside the model.
- The input focus effect of the search box (src/components/TopNavbar.jsx:12-16) is not modelled, because it is DOM focus only.
- Floating-point formatting is not modelled; the functions return None in these cases: the `parseFloat(count) * 1000` branch of `parseLikesCount`, `toFixed(1)` in `formatLikesCount` at 10000 and above, and `formatNumber` at 1000 and above.
- Js.ParseInt: does not round large results to double precision and returns 0 where JavaScript gives -0. Both look the same once displayed.
- Numbers are unbounded integers, and likes and saves are either an integer or a string. Pointer coordinates are reals.
- Js.DecimalString: does not model the exponent form that `Number.prototype.toString` writes from |n| >= 10^21 ("1e+21", whose `parseInt` is 1), nor the loss of precision of JavaScript numbers above 2^53; the round trip `Js.ParseIntOfDecimalString` and `Profile.FormatNumber` hold of the model's unbounded integers and, in JavaScript, only below 10^21.
- The clipboard promise, its toasts and their `setTimeout`, and the add-user icon timer (src/components/FooterRight.jsx:61-74) depend on time. The model keeps only the request to write the URL.
- The random profile stats and view counts (src/components/UserProfile.jsx:32-36, 66-69) are not modelled.
- Rendering is not modelled: JSX, CSS classes, icons, the share portal markup, and the `console.log` of a share target.
- The sample feed data is not modelled. `LoadFeed` accepts any list.
- React's asynchronous state updates are not modelled; each handler runs to completion before the next, and `setCurrentIndex` takes effect at once.
- The app never renders the profile panel and passes none of the props the top bar reads (`onSearch`, `searchQuery`, `onClearSearch`) to it (src/App.js:191). The components are modelled on their own, with the presence of `onSearch` and `onClearSearch` as constructor flags.
- `src/components/FooterLeft.jsx` and `src/components/BottomNavbar.jsx` are not part of this model.
