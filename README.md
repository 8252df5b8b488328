# Portfolio page interactivity, modelled in Dafny

This project models the logic inside `main.js` of a static personal-portfolio
page. Five controllers are wired to the page when it loads. The parts with
behaviour that can be stated are modelled here, with the browser abstracted to
fields and parameters:

- **Typewriter** (`Typewriter`): the hero-section animation types and deletes
  four fixed role strings in turn. One tick is the function `Step` on a
  `(roleIndex, charIndex, deleting)` state. The class `Typewriter` holds the
  closure's variables and the element's text, and its `Tick` returns the delay
  it would schedule. The proofs cover the following:
  - the shown text is always a prefix of the current role, and the indices stay in bounds;
  - each delay marks the phase change it makes;
  - one role takes exactly `2 * |role|` ticks, after which the next role starts, and the last role wraps to the first;
  - all four roles together take 138 ticks and 19.75 s, after which the animation is back in its start state.
- **Field validation** (`JsStrings`, `EmailValidation`): `trim`, the
  whitespace set that `trim` and `\s` share, and the e-mail pattern
  `^[^\s@]+@[^\s@]+\.[^\s@]+$`. The pattern's meaning is a predicate.
  `IsEmail` is a hand-written automaton, proved to accept exactly that
  language. The field-validity decision is proved against the pattern.
- **Contact form** (`ContactFormController`): `validateField` sets each
  field's `error` marker. `handleSubmit` validates every field, then either
  submits or shows the validation message. `submitForm` relabels and disables
  the button, shows the success message, resets the form and restores the
  button. `showMessage` keeps at most one status message, and each message's
  removal timer removes only that message.
- **Navigation** (`NavigationController`): the navbar style depends on the
  scroll offset. The mobile menu toggles. A link click closes it, unless the
  link's `href` is not a valid selector: then the lookup throws first and the
  menu keeps its state.
  `updateActiveLink` marks exactly the links whose `href` is `#id`. In the
  section observer's callback, the last intersecting entry decides.
- **Theme** (`ThemeController`): the theme is read from storage, flipped, and
  applied to the document and the icon. It is written back to storage on every
  flip. The icon is the sun exactly when the theme is `dark`.

The click handler turns `light` into `dark` and every other value into
`light`. The theme therefore alternates from a stored `light` or `dark`. From
any other stored string the first click gives `light` (`ToggleParity`,
`ToggleFromOther`).

## Model

| member | source | states |
|---|---|---|
| JsStrings.TrimMeaning | main.js:252 | `trim` returns the infix of the value that neither starts nor ends with whitespace. Everything cut off on either side is whitespace. The result is empty exactly when the value is blank. |
| JsStrings.Substring | main.js:202 | `substring(0, k)` with `0 <= k <= length` is the first `k` characters. With both bounds `<= 0` it is empty. The result is never longer than the string. |
| JsStrings.Trim | main.js:252 | `value.trim()`; its full meaning is stated by `TrimMeaning`, and its own contract says the result is never longer than the value. |
| EmailValidation.IsEmail | main.js:261-262 | `emailRegex.test(value)` as a hand-written automaton; `IsEmailCorrect` proves it equal to the pattern, and its own contract says an accepted string has at least five characters. |
| EmailValidation.FieldValid | main.js:252-263 | The validity decision of `validateField`; `FieldValidMeaning` states its meaning, and its own contract says a valid value has a non-empty trim. |
| EmailValidation.IsEmailCorrect | main.js:261-262 | The hand-written matcher accepts a string exactly when the pattern `^[^\s@]+@[^\s@]+\.[^\s@]+$` matches it (both directions). |
| EmailValidation.EmailShape | main.js:261 | The pattern matches exactly when: there is no whitespace; there is exactly one `@`, with something before it; and after the `@` there is a `.` with a character on each side. |
| EmailValidation.EmailExamples | main.js:261 | `a@b.co` matches. `""`, `ab.co` and `a@bco` do not. |
| EmailValidation.FieldValidMeaning | main.js:252-263 | A field is valid exactly when its trimmed value is non-empty and, if its type is `email`, the trimmed value matches the pattern. A blank value is never valid. |
| Typewriter.Step | main.js:198-223 | One tick keeps the role index in range. From a reachable state it reaches a reachable state, and the text it writes is the first `charIndex` characters of the current role. |
| Typewriter.StepTransitions | main.js:201-221 | The delays mark phase changes. 2000 ms exactly when typing turns to deleting (at full length). 500 ms exactly when deleting reaches 0 and the role advances modulo 4. 100 ms for typing ticks and 50 ms for deleting ticks. Typing adds one character and deleting removes one. |
| Typewriter.Run | main.js:198-223 | Any number of ticks keeps the role index in range and keeps the state reachable. |
| Typewriter.TypingPhase | main.js:213-221 | Typing from `k` characters reaches the full role, deleting, after `length - k` ticks. Those ticks take `100 * (length - k - 1) + 2000` ms. |
| Typewriter.DeletingPhase | main.js:202-211 | Deleting from `k` characters reaches the next role's start, `(i + 1) % 4` with 0 characters and typing, after `k` ticks. Those ticks take `50 * (k - 1) + 500` ms. |
| Typewriter.RoleCycle | main.js:199-221 | From `(i, 0, typing)`, exactly `2 * |role i|` ticks lead to `((i + 1) % 4, 0, typing)`. |
| Typewriter.FirstRoleAndWrap | main.js:207 | From `(0, 0, false)`, `2 * |role 0|` ticks lead to `(1, 0, false)`. From the last role the index wraps to 0. |
| Typewriter.FirstRoleTiming | main.js:207-226 | With the 1000 ms start delay, the second role starts being typed 6350 ms after the `DOMContentLoaded` handler runs. |
| Typewriter.FullPeriod | main.js:189-223 | After 138 ticks, totalling 19750 ms of delays, the animation is back in its start state. |
| Typewriter.Typewriter.constructor | main.js:188-192 | The closure starts at role 0, character 0, typing. The element keeps its text until the first tick. |
| Typewriter.Typewriter.Tick | main.js:198-223 | A tick moves the object to `Step` of its old state and returns `Step`'s delay. Afterwards the element shows the first `charIndex` characters of `roles[roleIndex]`, with the indices in bounds. |
| ContactFormController.Without | main.js:335-337 | Removing the message element created with a given serial keeps every other message and removes that one. If it is no longer shown, nothing changes. |
| ContactFormController.ContactForm.ValidateField | main.js:251-270 | The return value is the field's validity. The `error` marker ends up equal to its negation. Nothing else changes. |
| ContactFormController.ContactForm.ClearErrors | main.js:272-274 | The field's `error` marker is cleared and nothing else changes. |
| ContactFormController.ContactForm.ShowMessage | main.js:321-332 | The first existing message is removed and the new one appended. Starting from at most one message, exactly the new message is shown afterwards. |
| ContactFormController.ContactForm.DismissMessage | main.js:335-337 | A message's timer removes that message only. A newer message survives the timer of the one it replaced. |
| ContactFormController.ContactForm.Reset | main.js:312 | Every field gets back its default value. The `error` markers are unchanged. |
| ContactFormController.ContactForm.StartSubmit | main.js:300-305 | Before the wait, the button reads `Sending...` and is disabled. The original label is returned. |
| ContactFormController.ContactForm.FinishSubmit | main.js:311-317 | After the wait: the success message is the only message, the fields are reset, and the button has the original label and is enabled. |
| ContactFormController.ContactForm.SubmitForm | main.js:299-319 | After submitting, the button has its original label and is enabled. The form is reset and the success message is shown. |
| ContactFormController.ContactForm.ValidateAll | main.js:283-290 | Every field is validated, none skipped. Each marker is set exactly when its field is invalid. The result is the conjunction of all validities. |
| ContactFormController.ContactForm.HandleSubmit | main.js:276-297 | Every field's marker is refreshed. If all fields were valid, the form is submitted (button restored, fields reset, success message). Otherwise the validation message is the only message, and the button and values are untouched. |
| NavigationController.NavbarStyleAt | main.js:23-31 | The navbar is elevated exactly when the scroll offset exceeds 100. Otherwise it rests. |
| NavigationController.LastIntersecting | main.js:66-73 | None exactly when no entry intersects. Otherwise it is the id of an intersecting entry with no intersecting entry after it. |
| NavigationController.Navigation.OnScroll | main.js:23-31 | The navbar gets the style `NavbarStyleAt` picks for the offset. |
| NavigationController.Navigation.OnLinkClick | main.js:36-50 | After a click on a link whose `href` is a valid selector the mobile menu is closed; when `querySelector` throws on the `href`, the menu keeps its state. |
| NavigationController.Navigation.OnHamburgerClick | main.js:55-57 | A hamburger click flips the mobile menu's open state. |
| NavigationController.Navigation.UpdateActiveLink | main.js:80-87 | Afterwards link `k` is active exactly when its `href` equals `"#" + activeId`. No other link keeps `active`. |
| NavigationController.Navigation.OnIntersect | main.js:66-73 | The links end up highlighted for the last intersecting entry. With no intersecting entry they are unchanged. |
| NavigationController.AtMostOneActive | main.js:80-87 | When the links have distinct `href`s, at most one is active after an update. |
| ThemeController.InitialTheme | main.js:94 | A missing or empty stored value gives `light`. Any other stored value is kept. |
| ThemeController.Toggled | main.js:106 | The flip gives `dark` exactly from `light`, and `light` from anything else. |
| ThemeController.IconFor | main.js:116-120 | The icon is `fas fa-sun` exactly when the theme is `dark`. Otherwise it is `fas fa-moon`. |
| ThemeController.ToggleTwice | main.js:106 | Two flips from `light` or `dark` return the original theme. |
| ThemeController.ToggleParity | main.js:106 | After `n` flips from `light` or `dark`, the theme is the original one for even `n` and the other one for odd `n`. |
| ThemeController.ToggleFromOther | main.js:106 | From any other value the first flip gives `light`, and the theme then alternates. |
| ThemeController.ThemeToggle.constructor | main.js:92-102 | The stored theme is read and applied to the document and the icon. Storage is not written. |
| ThemeController.ThemeToggle.ApplyTheme | main.js:112-121 | The document's `data-theme` is the theme. The icon is the sun exactly when the theme is `dark`, and the moon otherwise. |
| ThemeController.ThemeToggle.Toggle | main.js:105-109 | The theme is flipped. Afterwards the stored value, the document attribute and the icon all agree with it. |

## Left out

- DOM querying, event-listener registration and `classList`/`style` plumbing are not modelled. Elements become fields and sequences of objects, and a listener becomes a method.
- The intersection observers' thresholds and root margins (main.js:61-64, 137-140) are left out because they depend on page geometry. The reveal-on-scroll styling (main.js:136-158) is left out too. The section observer's callback is modelled from the entries it receives.
- The button ripple (main.js:160-185) is left out: it is floating-point geometry on bounding rectangles.
- Timers are not modelled as timers. A typewriter tick returns its delay; the 1000 ms start delay is the constant `StartDelay`, used by `FirstRoleTiming`; the 2000 ms wait of `submitForm` is the boundary between `StartSubmit` and `FinishSubmit`. The 5000 ms message timer is `DismissMessage`, which may be called at any time.
- The `catch` branch of `submitForm` (main.js:313-314) is left out: the simulated request never rejects.
- `FormData` collection (main.js:279-280) is left out: the simulated submission ignores the data.
- Local storage is a field, and its initial read is a constructor parameter.
- `scrollIntoView`, the lookup of a link's target element (main.js:38-46) and the scroll indicator (main.js:342-359) are left out: they are scrolling I/O.
- NavigationController.Navigation.OnLinkClick: whether a link's `href` is a valid CSS selector is a parameter, because the selector grammar is not modelled; the `preventDefault` call that runs before the lookup is not modelled either.
- The injected style sheet (main.js:371-430) is left out: it is presentation only.
- JavaScript strings are UTF-16 code units; here characters are Unicode scalar values. The whitespace set is ECMAScript's WhiteSpace and LineTerminator set, with the Unicode 6.3+ space separators.
- A section without an `id` is not modelled as a null id: its entry carries the string `"null"`, which `#${null}` produces at main.js:83.
- `showMessage` removes the first `.form-message` in the whole document (main.js:323). The model holds only the form's messages, so it assumes no other such element is on the page.
- A second submission during the simulated wait is not modelled: the button is disabled then.
