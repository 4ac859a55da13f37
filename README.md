# TechWhizGenius portfolio site — a verified model of its page logic

The site is a personal portfolio. It has three kinds of behaviour. The plain
page script `js/main.js` validates the contact form, highlights navigation
links, reacts to scrolling and drives the mobile menu. The React home
component `src/components/Home.jsx` draws an animated "biotech network"
behind the hero text. `src/ThemeContext.jsx` keeps the light/dark theme.
This project models the decision rules and state updates of those three
files in Dafny. The DOM, the canvas and the timers are replaced by records,
classes and parameters.

Modules, one per concern:

- `Maybe`: an `Option` type for attributes and elements that may be absent.
- `JsText`: the pieces of JavaScript's string library the scripts rely on:
  - whitespace as `trim` and `\s` define it, `trim`, `split` on one character,
    `startsWith`;
  - UTF-16 `length`;
  - the decimal rendering of an integer inside a template literal.
- `ContactForm`: `validateField`, the error it shows or clears, the `input`
  listener, and `validateForm`.
- `Navigation`: the active nav link by page, the active anchor by scroll
  position, and the smooth-scroll click handler. The page itself comes from
  `getCurrentPage`.
- `MobileMenu`: `toggleMobileMenu` and `closeMobileMenu`, their listeners,
  and the menu as a class with the attributes they write. The icon is looked
  up inside the toggle, so a page with an icon but no toggle cannot occur
  (`PossibleDom`).
- `ScrollEffects`: the header's `scrolled` class and the back-to-top button
  style.
- `Theme`: the initial theme, `toggleTheme`, and the effect that mirrors the
  theme into `data-theme` and `localStorage`.
- `Palette`: the canvas colours chosen by `data-theme`, and a connection's
  opacity.
- `BioEntities`: a glyph (`BioEntity`): construction from its random draws,
  `update` and `checkMouseProximity`.
- `DataFlows`: a connection and its travelling pulse (`DataFlow`):
  construction and `update`.
- `Network`: the construction of the link graph:
  - the thirty glyphs and the pair enumeration;
  - the kind-compatibility rules and the flow probability;
  - a functional reference (`BuildSpec`) with its guarantees;
  - the imperative nested loops proved equal to it.

Randomness is a parameter:

- A glyph receives its `Math.random()` results as an `EntityDraws` record.
- A pulse receives its two results as arguments.
- The link construction reads `rng(n)`, the n-th `Math.random()` call made
  after the glyphs exist. It consumes these in the order the code does:
  - one draw for a probabilistic connection rule, only when that rule applies;
  - one draw for the flow decision, only when a link is made;
  - two draws inside `new DataFlow`.

Positions are `real`. Distances are compared squared: 220² = 48400 and
80² = 6400. `BioEntities.SquaredComparison` shows that this decides the same
as comparing the `Math.sqrt` distance.

Where the code and a natural reading of the site's behaviour differ, the
model follows the code:

- Glyph positions are not clamped to the canvas. A glyph may leave it before
  its velocity flips. `BioEntities.NoClampingExample` gives concrete numbers.
  What does hold is proved instead: the glyph stays at most one step outside
  and heads back (`BioEntities.BouncesKeepBand`).
- A pulse restarts only after its progress passes 1. Landing on exactly 1 is
  kept for one more tick (`DataFlows.ExactOneIsKept`). The restart tick is the
  first `k` with `progress + k·speed > 1` (`DataFlows.FirstReset`).
- A nav link without `href` makes `href.startsWith` throw. Later links are not
  visited (`Navigation.SetActiveNavLink` returns `completed == false`).
- A click on a bare `#` link has its default action prevented. Then
  `document.querySelector('#')` throws, so there is no scroll and the menu is
  not closed (`target` is `None`).
- The `currentPage === ''` disjunct of `setActiveNavLink` can never fire,
  because `getCurrentPage` never returns `''` (`Navigation.EmptyPageDisjunctDead`).

## Model

| member | source | states |
|---|---|---|
| JsText.TrimStartSpec | js/main.js:704 | `trimStart` leaves a suffix, drops only whitespace, and stops at the first non-whitespace character |
| JsText.TrimEndSpec | js/main.js:704 | `trimEnd` leaves a prefix, drops only whitespace, and stops at the last non-whitespace character |
| JsText.TrimEndIsPrefix | js/main.js:704 | `trimEnd` returns a prefix of its input |
| JsText.TrimEndDropsWhiteSpace | js/main.js:704 | every character `trimEnd` removes is whitespace |
| JsText.TrimEndStops | js/main.js:704 | a non-empty `trimEnd` result ends in a non-whitespace character |
| JsText.TrimIsMaximalInnerPiece | js/main.js:704 | the trimmed value is a contiguous piece of the input that neither starts nor ends with whitespace, with only whitespace around it |
| JsText.TrimEmptyIffBlank | js/main.js:704 | a value trims to `''` exactly when it is all whitespace |
| JsText.TrimIdempotent | js/main.js:704 | trimming twice is trimming once |
| JsText.TrimSurrounded | js/main.js:704 | whitespace added around a value does not change its trim |
| JsText.Utf16Length | js/main.js:727 | `value.length` counts UTF-16 units: at least the character count and at most twice it, and exactly the count inside the BMP |
| JsText.Split | js/main.js:112 | `split` always yields at least one piece |
| JsText.SplitSpec | js/main.js:112 | no piece holds the separator; there is one piece iff the separator is absent, and then it is the whole string |
| JsText.JoinSplit | js/main.js:112 | joining the pieces with the separator restores the string |
| JsText.LastPieceIsTail | js/main.js:112 | the last piece (`pop()`) is the text after the last separator, or the whole string when there is none |
| JsText.NatToDecimal | js/main.js:729 | a template literal renders a non-negative integer as decimal digits with no leading zero |
| JsText.DecimalRoundTrip | js/main.js:729 | reading the rendered digits gives the number back |
| ContactForm.IndexOf | js/main.js:717-718 | the position of the first occurrence of a character (or the length when there is none) |
| ContactForm.EmailMatchesPattern | js/main.js:717-718 | the decision procedure accepts exactly the strings that match `^[^\s@]+@[^\s@]+\.[^\s@]+$`: three non-empty `[^\s@]` runs, joined by `@` and then by `.` |
| ContactForm.EmailHasOneAt | js/main.js:717-718 | an accepted address has exactly one `@`, and the local part before it is non-empty |
| ContactForm.BlankRequiredRejected | js/main.js:704-713 | a required field holding only whitespace fails with "This field is required." |
| ContactForm.NonBlankEmailJudgedByPattern | js/main.js:710-731 | a non-blank e-mail field is judged by the pattern alone, with the e-mail message, whatever its `required` and `minlength` are (the length rule is never reached) |
| ContactForm.BlankOptionalWithMinLengthRejected | js/main.js:710-731 | a blank optional field with a positive `minlength` is rejected with "Minimum n characters required." |
| ContactForm.LengthRule | js/main.js:725-731 | past the first two branches, a field fails iff a parsed `minlength` exceeds the trimmed UTF-16 length, and the message names that bound |
| ContactForm.VerdictIgnoresSurroundingSpace | js/main.js:704 | leading and trailing whitespace never change the verdict |
| ContactForm.ErrorShown | js/main.js:734-738 | an error message is shown iff the field was rejected |
| ContactForm.Field.Validate | js/main.js:703-741 | returns true iff the field is accepted, and leaves exactly the verdict's message shown (or none) |
| ContactForm.Field.OnInput | js/main.js:627 | typing replaces the value and clears the error |
| ContactForm.ValidateForm | js/main.js:685-696 | true iff every required field is accepted; every required field shows its own verdict (no short circuit); non-required fields and all values are untouched |
| Navigation.CurrentPage | js/main.js:110-113 | the page name is never empty and holds no `/` |
| Navigation.CurrentPageIsLastSegment | js/main.js:110-113 | the page is the text after the last `/`, or `index.html` when that text is empty |
| Navigation.EmptyPageDisjunctDead | js/main.js:110-113 | for the page `getCurrentPage` returns, a link is current iff its href is the page, or it starts with `#` and the page is `index.html` |
| Navigation.FirstMissingHref | js/main.js:258-263 | the first link without `href`: every earlier link has one |
| Navigation.SetActiveNavLink | js/main.js:253-269 | completes iff every link has an `href`; each visited link is active iff it is current; the link that throws is left inactive; later links are untouched |
| Navigation.FindActiveSection | js/main.js:468-477 | the id of the last section in document order whose band `top − header − 100 ≤ scrollTop < top − header − 100 + height` holds the scroll position, or `''` when none does |
| Navigation.UpdateActiveSectionOnScroll | js/main.js:459-484 | with no sections nothing changes; otherwise each `a[href^="#"]` link is active iff its href is `#` + the active id, and the other links are untouched; when no section is on screen, the only anchor left active is a bare `#` |
| Navigation.ScrollTarget | js/main.js:285-291 | the smooth-scroll target is `max(0, offsetTop − header − 100)` |
| Navigation.ScrollTargetIsInBand | js/main.js:285-291 | after a smooth scroll to a section, the scroll-spy band of that section holds the new position (when its band ends below the page top) |
| Navigation.OnAnchorClick | js/main.js:275-298 | the default action is prevented iff the click is inside an `a[href^="#"]`; the scroll happens iff the target exists; the menu is closed exactly when it scrolls |
| MobileMenu.ToggleFollowsState | js/main.js:354-373 | toggling flips `active`, and `aria-expanded`, `aria-hidden`, the body's overflow and the icon follow the new state |
| MobileMenu.CloseResets | js/main.js:379-399 | closing leaves the menu inactive, with `aria-expanded=false`, `aria-hidden=true`, the overflow reset and the bars icon |
| MobileMenu.CloseIdempotent | js/main.js:379-399 | closing twice is closing once |
| MobileMenu.ToggleTwiceRestores | js/main.js:354-373 | from any state the operations leave behind, toggling twice changes nothing |
| MobileMenu.CloseOpenIsToggle | js/main.js:354-399 | closing an open menu equals toggling it |
| MobileMenu.OnlyToggleOpens | js/main.js:307-347 | of all the events the page listens to, only a toggle click opens the menu |
| MobileMenu.ClosingEvents | js/main.js:323-347 | a menu-link click, Escape and a resize wider than 768 always close the menu |
| MobileMenu.EventsKeepConsistent | js/main.js:307-399 | no sequence of events breaks the agreement between the `active` class and the attributes |
| MobileMenu.Menu.Toggle | js/main.js:354-373 | the menu's attributes become `toggleMobileMenu`'s result on the old ones |
| MobileMenu.Menu.Close | js/main.js:379-399 | the menu's attributes become `closeMobileMenu`'s result on the old ones |
| ScrollEffects.UpdateHeader | js/main.js:433-444 | a page with a header gets `scrolled` iff scrollTop > 50; a page without one is unchanged |
| ScrollEffects.BackToTop | js/main.js:541-557 | the button is shown (`1`, `visible`, `translateY(0)`) iff scrollTop exceeds the window height, and otherwise hidden |
| ScrollEffects.OnScrollIdempotent | js/main.js:414-418 | a second scroll event at the same position changes nothing |
| ScrollEffects.ThresholdsMonotone | js/main.js:433-444 | both effects stay switched on as the page scrolls further down |
| ScrollEffects.ButtonShownImpliesHeaderScrolled | js/main.js:541-557 | on a window at least 50 pixels high, a visible button implies a scrolled header |
| ScrollEffects.NewButtonStaysHiddenAtTop | js/main.js:510-535 | a new button at the top of the page keeps its hidden creation style |
| Theme.InitialTheme | src/ThemeContext.jsx:7-11 | the stored theme if it is non-empty, otherwise `light` |
| Theme.NextTheme | src/ThemeContext.jsx:20-22 | `light` becomes `dark`, and every other value becomes `light` |
| Theme.ToggleTwiceOnKnownThemes | src/ThemeContext.jsx:20-22 | toggling twice restores `light` and `dark` |
| Theme.ToggleTwiceOnOtherStrings | src/ThemeContext.jsx:20-22 | any other stored string becomes `light`, then `dark`, and never returns |
| Theme.ToggleParity | src/ThemeContext.jsx:20-22 | repeated toggles alternate by the parity of their count |
| Theme.ThemeProvider.constructor | src/ThemeContext.jsx:7-18 | mounting picks the initial theme from storage and mirrors it into `data-theme` and storage |
| Theme.ThemeProvider.ApplyTheme | src/ThemeContext.jsx:13-18 | the effect writes the theme to `data-theme` and the `theme` key, and changes nothing else in storage |
| Theme.ThemeProvider.ToggleTheme | src/ThemeContext.jsx:13-22 | after a toggle the theme is the next one, and the document and storage both hold it |
| Theme.Remount | src/ThemeContext.jsx:7-18 | a provider mounted over the storage a mirrored provider left behind starts with that provider's theme, shows it in `data-theme`, and leaves the storage unchanged |
| Palette.EntityColour | src/components/Home.jsx:129-141 | the glyph colour has alpha 0.4 when active and 0.2 otherwise |
| Palette.ActiveColourIffActive | src/components/Home.jsx:129-141 | the colour is the active colour iff the glyph is active |
| Palette.PaletteIsBinary | src/components/Home.jsx:129-135 | two themes paint alike iff both are `dark` or both are not, so a missing or unknown theme paints like `light` |
| Palette.ConnectionOpacity | src/components/Home.jsx:317-318 | `max(0, 1 − d/220)` lies in [0, 1] for d ≥ 0 and is 0 from 220 on |
| Palette.OpacityFades | src/components/Home.jsx:317-318 | opacity never increases with distance |
| Palette.ConnectionColour | src/components/Home.jsx:317-323 | a link's alpha is in [0, 0.1], and 0 from 220 on |
| Palette.FlowColour | src/components/Home.jsx:355-357 | a pulse has alpha 0.3 |
| Palette.Background | src/components/Home.jsx:443-444 | the background wash has alpha 0.15 |
| Palette.CanvasFollowsThemeProvider | src/components/Home.jsx:443 | once the theme effect has run, the canvas paints dark exactly when the React theme is `dark` |
| BioEntities.DrawIndex | src/components/Home.jsx:29 | `Math.floor(d·n)` for a draw in [0, 1) is an index below n, the one whose interval holds d·n |
| BioEntities.ScaledDrawBelow | src/components/Home.jsx:29 | a draw in [0, 1) scaled by n > 0 lies in [0, n) |
| BioEntities.KindIntervals | src/components/Home.jsx:21-29 | the kind splits [0, 1) into the intervals 2/8, 1/8, 1/8, 2/8, 2/8 for DNA, molecule, neuron, cloud and heartbeat |
| BioEntities.BounceKeepsSpeed | src/components/Home.jsx:75-80 | one tick moves by the velocity, keeps its magnitude, and negates it iff the new position is off [0, bound] |
| BioEntities.BounceKeepsBand | src/components/Home.jsx:75-80 | one tick keeps a glyph within one step of the segment and heading back when outside |
| BioEntities.BouncesKeepBand | src/components/Home.jsx:75-80 | after any number of ticks on a fixed canvas, the band and the speed still hold |
| BioEntities.NoClampingExample | src/components/Home.jsx:75-80 | an 800-pixel canvas, x = 10, vx = −5: no flip after one tick, and off the canvas after three |
| BioEntities.SquaredDistance | src/components/Home.jsx:121-123 | the squared distance is non-negative |
| BioEntities.SquaredComparison | src/components/Home.jsx:121-124 | comparing squared distances decides the same as comparing the distance |
| BioEntities.PointerOnGlyph | src/components/Home.jsx:115-125 | a pointer on a glyph with non-zero coordinates activates it; a zero or `null` coordinate never does |
| BioEntities.BioEntity.constructor | src/components/Home.jsx:24-73 | every field is the one the constructor computes from its draws; `active` starts false |
| BioEntities.BioEntity.Update | src/components/Home.jsx:75-87 | both axes bounce, rotation advances by its speed, only a heartbeat advances its beat, and `active` is untouched |
| BioEntities.BioEntity.CheckMouseProximity | src/components/Home.jsx:115-125 | inactive when a pointer coordinate is falsy; otherwise active iff the squared distance is below 6400 |
| BioEntities.NewEntityInBand | src/components/Home.jsx:25-28 | a new glyph starts inside the band on both axes |
| DataFlows.AdvanceSpec | src/components/Home.jsx:341-346 | one tick adds the speed, or restarts at exactly 0 iff progress passed 1; progress on [0, 1] stays there |
| DataFlows.StaysInUnit | src/components/Home.jsx:341-346 | progress starting in [0, 1] never leaves it, over any number of ticks |
| DataFlows.ReachIsProduct | src/components/Home.jsx:342 | n repeated additions of the speed are `progress + n·speed` |
| DataFlows.ReachMonotone | src/components/Home.jsx:342 | with a non-negative speed, the unrestarted position never decreases |
| DataFlows.LinearPhase | src/components/Home.jsx:341-346 | until `progress + n·speed` passes 1, the pulse moves linearly |
| DataFlows.FirstReset | src/components/Home.jsx:341-346 | the restart happens exactly at the first tick whose linear position passes 1 |
| DataFlows.ExactOneIsKept | src/components/Home.jsx:343 | a pulse landing on exactly 1 is not restarted until the next tick |
| DataFlows.DataFlow.constructor | src/components/Home.jsx:335-339 | a new pulse takes its progress and a speed of `0.003 + draw·0.002` |
| DataFlows.DataFlow.Update | src/components/Home.jsx:341-346 | the progress becomes one tick of `Advance` on the old one |
| DataFlows.NewFlowRanges | src/components/Home.jsx:338 | a new pulse's speed lies in [0.003, 0.005) |
| Network.Placements | src/components/Home.jsx:370-376 | what the construction reads of each glyph: position and kind |
| Network.RuleConditionsDisjoint | src/components/Home.jsx:379-411 | at most one of the seven rule conditions holds, so no rule overrides another |
| Network.EligibilitySymmetric | src/components/Home.jsx:379-411 | the compatibility table is symmetric in the two kinds |
| Network.ShouldConnectMatchesTable | src/components/Home.jsx:377-411 | the if-chain decides exactly as the table and consumes one draw exactly for a probabilistic rule |
| Network.FlowProbability | src/components/Home.jsx:417-423 | the flow probability is 0.8 or 0.5 |
| Network.FlowProbabilityDirected | src/components/Home.jsx:417-423 | 0.8 only for an always-connecting pair in pipeline order, and that pair reversed gets 0.5 |
| Network.FlowLinks | src/components/Home.jsx:426 | the connections of the pulses, one per pulse, in order |
| Network.BuildSpecGuarantees | src/components/Home.jsx:370-431 | every link joins an in-range pair i < j of connectable kinds; links follow loop order (no duplicate, no self-link); every in-range always-connecting pair is linked; pulses sit on distinct links; pulse progress and speed lie in their draw ranges |
| Network.IncreasingMeansDistinct | src/components/Home.jsx:370-371 | links in loop order are pairwise different |
| Network.PulseDependsOnOrder | src/components/Home.jsx:413-427 | a heartbeat next to DNA with every draw 0.6 is linked in both orders, but gets a pulse only when the heartbeat comes first |
| Network.CreateEntities | src/components/Home.jsx:366-368 | thirty fresh, distinct glyphs, each placed and typed by its own draws |
| Network.SeedsAppend | src/components/Home.jsx:426 | pushing a pulse appends its constructed values |
| Network.ConnectPair | src/components/Home.jsx:372-428 | one inner iteration pushes exactly what the reference `VisitPair` adds, with new, distinct pulse objects |
| Network.ConnectRow | src/components/Home.jsx:371-430 | the inner `forEach` for one glyph produces exactly the reference row |
| Network.BuildNetwork | src/components/Home.jsx:370-431 | the nested loops fill `connections` and `dataFlows` with exactly the reference links and pulses, as fresh, distinct objects |

## Left out

- `throttle` and `debounce` (js/main.js:57-89): they are timers. A scroll or resize event is modelled as delivered.
- The `fetch` in `loadHeaderComponent` and `handleFormSubmission`, and the messages shown after submission: these are network I/O.
- `IntersectionObserver` animations, `monitorPerformance` and the visibility handler: these are browser APIs.
- DOM element creation (`showFieldError`, `showFormMessage`, `createBackToTopButton`): the resulting field error, button style and menu attributes are fields of records and classes.
- `querySelector` and `getAttribute`: their results are parameters (`Option` for an element that may be missing). `parseInt` is given as its outcome (absent, NaN or an integer).
- `localStorage` exceptions (private browsing) are not modelled. Storage is a map.
- Canvas drawing (`drawDNA` and the other glyph painters, and the `draw` bodies): trigonometric floating-point geometry. Only the colour and opacity choices are modelled.
- `applyClusterForce` (src/components/Home.jsx:89-113): stochastic floating-point numerics with an unguarded division by zero. The band lemmas therefore assume no cluster force and a canvas that is not resized.
- The `animate` loop, `requestAnimationFrame`, and the mousemove and resize listeners: host scheduling. One tick of each glyph and pulse is an operation of its class.
- BioEntities.BioEntity.constructor: takes its draws as a record. The neuron's discarded first size draw, the DNA `helixTwist` draw and their position in one global random stream are not modelled. Drawing-only fields (`neuralLayers`, `atomPositions`, `segments`, ...) are omitted. Non-heartbeat glyphs get `beatOffset` 0 where the code leaves it undefined.
- ContactForm.MinLengthMessage: treats a parsed `minlength` as an exact integer. It is rendered as exact decimal digits and compared exactly. JavaScript agrees only below 2^53. Larger values are rounded to a double and printed in shortest or exponent form (`1e+21`). A digit string beyond the double range parses to `Infinity`: the page then shows "Minimum Infinity characters required." and rejects every value.
- ContactForm.Field: each field is taken to sit in its own parent element. `showFieldError` and `clearFieldError` (js/main.js:748-776) find the message through `field.parentNode.querySelector('.field-error')`. So fields that share a parent share one message: validating a valid field removes a sibling's message. The per-field `error` of ContactForm.ValidateForm describes only pages where no two fields share a parent.
- MobileMenu.MenuDom: the toggle button and the menu are taken to be two different elements. The selectors (js/main.js:308-309) can pick one element for both, since an element with id `mobile-menu` also matches `[id*="mobile"]`. On such a page, a menu-link click closes the menu, then bubbles to the toggle listener, which opens it again. MobileMenu.ClosingEvents does not describe that page.
- Network.CreateEntities: states each glyph's position and kind. The other fields follow from the constructor's contract but are not repeated here.
- Floating point is modelled as `real`. `Math.PI * 2` is the literal 6.283185307179586.
- `src/components/Navbar.jsx`, `src/App.jsx`, `src/pages/HomePage.jsx` and the static content components are not part of this model.
