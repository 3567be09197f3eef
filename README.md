# Marketing site interaction logic, modelled in Dafny

The site is a Next.js marketing site: a home page, an about page, a contact
page and a floating navigation bar. Apart from markup it holds a handful
of small state machines, and this project models all of them:

- **Contact form controller** (`src/app/contact/page.tsx`).
  - Six string fields and an error map.
  - `validateForm`. It applies trim-based required-field rules and the unanchored e-mail pattern `/\S+@\S+\.\S+/`.
  - `handleInputChange`. It writes one field and clears that field's error to `''`.
  - `handleSubmit`. It drives the `isSubmitting` / `isSubmitted` lifecycle.
  - The simulated 2000 ms send and the 5000 ms banner timer are modelled as events, not time: `SendResolved` and `ResetTimerFired`.
- **Navigation bar** (`src/app/components/Navbar.tsx`). It shows or hides on each scroll event from the new and the last scroll position. A toggle opens the mobile menu; a link click or a backdrop click closes it.
- **Testimonial carousel** (`src/app/page.tsx`). A timer tick advances an index modulo 3, and a dot click sets it. The page also derives the active dot and the star count from the index.
- **About page** (`src/app/about/page.tsx`). It holds a three-valued tab selector, and exactly one panel is shown at a time. Timeline items alternate sides by index parity.
- **Reveal-once map** (all three pages). An IntersectionObserver callback sets a section id to `true` when that section intersects the viewport.

Files:

- `js_text.dfy` (module `JsText`): JavaScript's white-space set. This is WhiteSpace plus LineTerminator (ECMA-262, sections 12.2 and 12.3), the set both `String.prototype.trim` and `\s` use. Also `TrimStart`, `TrimEnd` and `Trim`, and the lemmas relating trim to blankness.
- `contact_rules.dfy` (module `ContactRules`): the field record, the messages, the e-mail pattern test, the validator `FormErrors`, and the form's documented outcomes as lemmas.
- `contact_page.dfy` (module `ContactPage`): the class `ContactForm`, with the handlers as methods, plus scenario methods that run the lifecycle end to end.
- `reveal.dfy` (module `Reveal`): the observer callback, as a pure fold `Observe` and as the loop in `RevealMap.OnIntersect`.
- `exclusive.dfy` (module `Exclusive`): counting active flags, and the one-hot lemma.
- `navbar.dfy` (module `Nav`), `home_page.dfy` (module `HomePage`), `about_page.dfy` (module `AboutPage`).

Three details of the code shape the model:

- Editing a field does not delete its error key. It maps the key to `''` (`src/app/contact/page.tsx:162`). `HasError` reads such a key as "no error", just as the JSX's `errors.name &&` does.
- The submission state is two independent flags, `isSubmitting` (`src/app/contact/page.tsx:49`) and `isSubmitted` (`src/app/contact/page.tsx:50`), so both can hold at once. Submitting again while the success banner is still shown reaches that state, as `ContactPage.ResubmitDuringBanner` proves.
- Each resolved send schedules its own banner timer, and none is ever cancelled, so a timer left over from an earlier send can hide the banner of a later send early. The ghost counter `pendingResets` tracks scheduled timers, so that `ResetTimerFired` can only occur while one is pending; `ContactPage.StaleTimerHidesBanner` proves the early hiding is reachable.

## Model

| member | source | states |
|---|---|---|
| `JsText.TrimStartMeaning` | src/app/contact/page.tsx:134 | trimming the start leaves a suffix of the input; the dropped prefix is all white space; the result does not start with white space |
| `JsText.TrimEndMeaning` | src/app/contact/page.tsx:134 | trimming the end leaves a prefix; the dropped suffix is all white space; the result does not end with white space |
| `JsText.TrimIsInfix` | src/app/contact/page.tsx:134 | `trim()` returns the infix of the input between a blank prefix and a blank suffix |
| `JsText.TrimEnds` | src/app/contact/page.tsx:138 | a non-empty `trim()` result neither starts nor ends with white space |
| `JsText.Trim` | src/app/contact/page.tsx:134 | `String.prototype.trim`: white space stripped from both ends; characterised by `TrimStartMeaning`, `TrimEndMeaning`, `TrimIsInfix` and `TrimEnds` |
| `JsText.TrimEmptyIff` | src/app/contact/page.tsx:134-146 | `!s.trim()` holds exactly when every character of `s` is JavaScript white space |
| `ContactRules.FormData.With` | src/app/contact/page.tsx:158 | `{ ...prev, [name]: value }`: the named field gets the value and the other five fields are unchanged |
| `ContactRules.FieldsDetermineForm` | src/app/contact/page.tsx:21-28 | two form records that agree on all six fields are equal |
| `ContactRules.EmailPatternTest` | src/app/contact/page.tsx:140 | `/\S+@\S+\.\S+/.test(email)`: some substring is a run of non-space characters, `@`, another run, `.`, and a third run; its shape is given by `EmailPatternShape` |
| `ContactRules.HasError` | src/app/contact/page.tsx:295-298 | `errors.x &&`: a field shows an error when its key is present with a non-empty (truthy) message |
| `ContactRules.EmailPatternShape` | src/app/contact/page.tsx:140 | the unanchored test of `\S+@\S+\.\S+` holds exactly when some `@` has a non-space before it and is followed, through non-space characters only, by a `.` with at least one character between them and a non-space after it |
| `ContactRules.EmailPatternNotBlank` | src/app/contact/page.tsx:138-142 | an address that passes the pattern test is not blank, so "Email is required" and "Email is invalid" never both apply |
| `ContactRules.FormErrors` | src/app/contact/page.tsx:131-151 | Name has an error iff the name is blank, with "Name is required". Email has an error iff the address is blank or fails the pattern test on the untrimmed value. Its message is "Email is required" when blank and "Email is invalid" otherwise. Message has an error iff it is blank. Service has an error iff it is exactly `""`, with no trim. Phone and company never have one |
| `ContactRules.FormValidIff` | src/app/contact/page.tsx:152-153 | the map has no keys (validation returns true) iff name and message are non-blank, the address passes the pattern test and a service is chosen |
| `ContactRules.FormErrorsShown` | src/app/contact/page.tsx:295-298 | every key the validator sets carries a non-empty message, so it is displayed |
| `ContactRules.SampleEmailPasses` | src/app/contact/page.tsx:140 | "jane@example.com" passes the pattern test |
| `ContactRules.SampleFormValid` | src/app/contact/page.tsx:131-153 | the filled sample form (name, address, service, message) validates with an empty map |
| `ContactRules.InvalidEmailOnly` | src/app/contact/page.tsx:138-142 | with address "not-an-email" and the other fields valid, the only error is Email: "Email is invalid" |
| `ContactRules.EmptyFormErrors` | src/app/contact/page.tsx:131-153 | the empty form gets exactly four errors: name, e-mail ("Email is required"), message and service |
| `ContactPage.ContactForm.constructor` | src/app/contact/page.tsx:39-50 | all six fields `''`, no errors, both flags false, empty reveal map |
| `ContactPage.ContactForm.ValidateForm` | src/app/contact/page.tsx:131-154 | the error map is replaced wholesale by the validator's map; returns true iff it has no keys; nothing else changes, so calling it twice gives the same map |
| `ContactPage.ContactForm.HandleInputChange` | src/app/contact/page.tsx:156-164 | sets only the named field. If that field showed an error, the error becomes `''` and the key stays; otherwise the map is unchanged. Afterwards the field shows no error, and the flags are unchanged |
| `ContactPage.ContactForm.SubmitDisabled` | src/app/contact/page.tsx:410 | `disabled={isSubmitting}`: the submit button is disabled exactly while a send is in flight; it is `HandleSubmit`'s precondition |
| `ContactPage.ContactForm.HandleSubmit` | src/app/contact/page.tsx:166-173 | validates. If invalid, it stops with the fields and `isSubmitted` unchanged and `isSubmitting` false; if valid, `isSubmitting` becomes true. It keeps the invariant that no error is set while submitting |
| `ContactPage.ContactForm.SendResolved` | src/app/contact/page.tsx:177-199 | when the send resolves, all six fields become `''`, `isSubmitted` becomes true, a reset is scheduled and `isSubmitting` becomes false |
| `ContactPage.ContactForm.ResetTimerFired` | src/app/contact/page.tsx:191-193 | the reset timer sets `isSubmitted` to false and changes nothing else |
| `ContactPage.SubmitRoundTrip` | src/app/contact/page.tsx:166-199 | filling and submitting the sample form moves (isSubmitting, isSubmitted) through (F,F), (T,F), (F,T), (F,F) and leaves the fields empty |
| `ContactPage.SubmitInvalidEmail` | src/app/contact/page.tsx:169-171 | when the handler runs on an invalid address, it yields only "Email is invalid"; no send starts and the data is unchanged |
| `ContactPage.SubmitEmptyThenType` | src/app/contact/page.tsx:160-163 | after an empty submit has set four errors, typing in the name field maps Name to `''` rather than deleting it |
| `ContactPage.ResubmitDuringBanner` | src/app/contact/page.tsx:173-193 | a second valid submit before the banner timer fires reaches `isSubmitting && isSubmitted` |
| `ContactPage.StaleTimerHidesBanner` | src/app/contact/page.tsx:180-193 | after two valid sends resolve, the first send's banner timer hides the second banner while the second timer is still pending |
| `Reveal.Observe` | src/app/contact/page.tsx:115-120 | the observer callback as a fold: the entries applied in order, each intersecting one setting its id to true; characterised by `ObserveMeaning` |
| `Reveal.ObserveMeaning` | src/app/contact/page.tsx:115-120 | after a callback, an id is a key iff it was one before or an entry for it intersected. An intersected id maps to true, and every other key keeps its value |
| `Reveal.ObserveMonotone` | src/app/about/page.tsx:177-181 | an id that is visible stays visible through any callback |
| `Reveal.ObserveKeepsAllTrue` | src/app/page.tsx:89-93 | only `true` is ever stored: a map of true values stays one |
| `Reveal.RevealMap.constructor` | src/app/page.tsx:31 | the map starts empty |
| `Reveal.RevealMap.IsShown` | src/app/page.tsx:161 | `isVisible.about ?`: a section has faded in when its id maps to true |
| `Reveal.RevealOnce` | src/app/page.tsx:88-94 | a section is hidden at first, fades in when it intersects, stays faded in after it leaves the viewport, and a non-intersecting section stays hidden |
| `Reveal.RevealMap.OnIntersect` | src/app/page.tsx:88-94 | the `forEach` over entries leaves the map equal to the in-order fold of the entries |
| `Exclusive.OneHotCount` | src/app/page.tsx:303-305 | a list of flags set exactly at one position has exactly one flag set |
| `Nav.NextVisible` | src/app/components/Navbar.tsx:31-35 | the bar is shown at positions below 100 and when scrolling up; it is hidden when at or past 100 and not scrolling up |
| `Nav.Navbar.constructor` | src/app/components/Navbar.tsx:14-16 | initially visible, `lastScrollY == 0`, menu closed |
| `Nav.Navbar.ControlNavbar` | src/app/components/Navbar.tsx:26-38 | after a scroll to `cur`, `isVisible == (cur < last \|\| cur < 100)`; `lastScrollY == cur` either way; the menu flag is untouched |
| `Nav.Navbar.ToggleMobileMenu` | src/app/components/Navbar.tsx:47-49 | negates the menu flag and changes nothing else |
| `Nav.Navbar.CloseMobileMenu` | src/app/components/Navbar.tsx:93 | a mobile link click (and the backdrop click at line 127) closes the menu and changes nothing else |
| `Nav.Navbar.BackdropRendered` | src/app/components/Navbar.tsx:124 | `isMobileMenuOpen &&`: the backdrop exists, and so can be clicked, only while the menu is open |
| `Nav.Navbar.ClickBackdrop` | src/app/components/Navbar.tsx:124-129 | a click on the rendered backdrop closes the menu, removes the backdrop and changes nothing else |
| `Nav.OpenThenBackdrop` | src/app/components/Navbar.tsx:104-129 | a fresh bar has no backdrop; the menu button brings it up; a click on it takes the menu and the backdrop away |
| `Nav.ToggleTwiceRestores` | src/app/components/Navbar.tsx:47-49 | two toggles restore the menu flag, even with a scroll event between them |
| `Nav.CloseTwiceStaysClosed` | src/app/components/Navbar.tsx:127 | closing again leaves the menu closed |
| `Nav.FirstScroll` | src/app/components/Navbar.tsx:14-37 | from a fresh bar, the first scroll to `y` leaves it visible iff `y < 100`, and the menu closed |
| `HomePage.NextIndex` | src/app/page.tsx:105-106 | a tick moves index `i` to `i + 1`, wrapping from the last testimonial to 0, and stays in range |
| `HomePage.AfterTicks` | src/app/page.tsx:106 | any number of ticks keeps the index within the testimonials |
| `HomePage.AfterTicksIsRotation` | src/app/page.tsx:106 | k ticks from `i` give `(i + k) % 3` |
| `HomePage.FullRoundReturns` | src/app/page.tsx:106 | three ticks return to the starting index |
| `HomePage.DotStates` | src/app/page.tsx:299-305 | the dot row: one dot per testimonial, dot `i` styled active when `i === currentTestimonial` |
| `HomePage.ExactlyOneDotActive` | src/app/page.tsx:299-305 | exactly one dot is styled active, the one at the current index |
| `HomePage.StarKeys` | src/app/page.tsx:281 | the number of stars drawn is the current testimonial's rating |
| `HomePage.Home.constructor` | src/app/page.tsx:30-31 | the carousel starts at 0 with an empty reveal map |
| `HomePage.Home.Tick` | src/app/page.tsx:104-107 | the interval moves the index to `NextIndex` of the old one, staying in range |
| `HomePage.Home.HandleTestimonialChange` | src/app/page.tsx:121-123 | a dot click sets the index to that dot's position |
| `HomePage.CarouselRound` | src/app/page.tsx:104-123 | from any index, three ticks come back to it; a later dot click makes that dot the one active dot |
| `AboutPage.TabButtonsCoverTabs` | src/app/about/page.tsx:340-350 | every tab value has a button, and the three labels are distinct |
| `AboutPage.ButtonsActive` | src/app/about/page.tsx:340-345 | one flag per tab button, in drawing order, set when `activeTab === tab` |
| `AboutPage.PanelsRendered` | src/app/about/page.tsx:357-427 | the story, team and timeline panels, each rendered under its own `activeTab === ...` test |
| `AboutPage.ExactlyOneTabShown` | src/app/about/page.tsx:340-427 | exactly one tab button is styled active and exactly one of the story, team and timeline panels is rendered, both at the active tab's position |
| `AboutPage.TimelineLayout` | src/app/about/page.tsx:435-438 | item `i` is `flex-row` iff `i` is even, and `text-right` exactly when it is `flex-row`; otherwise it is `flex-row-reverse` / `text-left` |
| `AboutPage.TimelineAlternates` | src/app/about/page.tsx:435-438 | consecutive timeline items take opposite layouts; items two apart take the same |
| `AboutPage.About.constructor` | src/app/about/page.tsx:39-40 | the page opens on the story tab with an empty reveal map |
| `AboutPage.About.SelectTab` | src/app/about/page.tsx:343 | a tab click makes that tab active |
| `AboutPage.OpenThenClick` | src/app/about/page.tsx:357-427 | a fresh page renders only the story panel; after a click, exactly the clicked tab's panel is rendered, the same flags as the buttons' active styling |

## Left out

- Markup, Tailwind classes, `<style jsx>` keyframes and animation delays: presentation, with nothing to prove beyond the derivations above.
- Browser APIs are not modelled. This covers IntersectionObserver registration and `disconnect`, `document.querySelectorAll`, adding and removing the scroll listener, and the `typeof window` guard (always true in the browser). It also covers `next/image`, `next/link` and the icons. The observer's entries and the scroll position are parameters of the handlers.
- Scroll positions are integers. The browser reports `window.scrollY` as a float.
- Real time is not modelled. The 2000 ms send, the 5000 ms banner timer and the 5000 ms carousel interval are events. Interval clearing and teardown on unmount are not modelled.
- The `catch` / `console.error` path of `handleSubmit`: the simulated delay cannot reject, so no failure state exists.
- The `console.log` placeholder handlers on the home and about pages.
- Static copy is not modelled: statistics, values, team, milestones, offices, partners, services and testimonial quotes. Only the testimonial count and ratings matter.
- React scheduling is not modelled: functional-update batching, and the navbar listener being re-registered with a fresh `lastScrollY` closure. Each handler is one atomic update of the current state.
- JavaScript strings are UTF-16 code units, while Dafny characters are code points. Every white-space character is in the Basic Multilingual Plane, and a surrogate pair is two non-space units, so trim and `\S` give the same results either way.
- The browser's own constraint validation and value sanitisation of the `type="email"` input (`src/app/contact/page.tsx:308`) are not modelled. The form at `src/app/contact/page.tsx:278` has no `noValidate`, so a browser refuses to fire `submit` for an address such as "not-an-email", while it lets "a@b" through to the pattern, which rejects it. The modelled inputs to `HandleSubmit` are therefore a superset of what reaches `handleSubmit` in a browser, and `ContactPage.SubmitInvalidEmail` describes the handler's code, not a browser session.
- The event target's `name` is always one of the six inputs. It is modelled as the `Field` enumeration.
- `ContactPage.ContactForm.HandleSubmit`: requires that the submit control is enabled (`!isSubmitting`). The button is `disabled={isSubmitting}`, and a disabled default button also blocks implicit submission.
- `ContactPage.ContactForm.ValidateForm`: requires `!isSubmitting`, because its only caller is `HandleSubmit`.
- `HomePage.Home.HandleTestimonialChange`: requires `index < 3`. The handler itself accepts any number, but its only callers are the dot buttons, which pass their own positions.
