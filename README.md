# Portfolio site: contact form, mail handler and page widgets

This project models the logic of a single-page portfolio site (Next.js / React) in Dafny.
It covers the parts of the site whose behaviour can be stated precisely:

- **Contact form controller** (`ContactForm`, `contact.dfy`). This is `validateField` with its six messages. The component state (`formData`, `errors`, `touched`, `isSubmitting`, `submitStatus`) is a class. Its change, blur, submit, response and status-revert events are methods with frame conditions. The `forEach` that builds `newErrors` is a loop with its invariants.
- **E-mail pattern** (`EmailPattern`, `email.dfy`). This is `/^[^\s@]+@[^\s@]+\.[^\s@]+$/`, which the form and the API handler each test against the raw value. The regular expression is read literally as a ghost predicate. An executable four-part shape check is proved equivalent to it.
- **Contact API handler** (`ContactRoute`, `route.dfy`). The `POST` handler is a function. It maps the parsed body (or the parse failure), the environment, a configured fallback account and the transport's outcome to the status, the JSON body and the transport call it makes.
- **Hero banner** (`Hero`, `layout.dfy`, `hero.dfy`). This covers the scroll clamp, the typewriter's timer step as a class with three fields, the floating-snippet index, and the `parseCode` tokenizer. The tokenizer is modelled twice: as a method with a `while` loop and an inner string scan, and as the recursive function that specifies it.
- **Experience timeline** (`Experience`, `experience.dfy`). These are `formatPeriod` and `getDuration`. They take the month, the year and the millisecond timestamp that the component reads from a `Date`.
- **About / skills** (`About`, `about.dfy`). This is the `groupedSkills` reduce as a loop over a map, plus category labels, the icon fallback and the summary counts.
- **Navigation bar** (`Navbar`, `navbar.dfy`). This is `handleScroll`'s reverse loop with `break`, `handleNavClick`, and the mobile menu's transitions.
- **Projects grid** (`Projects`, `projects.dfy`). This is the card's tech-badge overflow rule, the modal's sections, and the modal open/close state.

Shared helpers are `Text` (the ECMAScript white-space set used by both `\s` and `trim()`, trimming, decimal numerals, splitting and substring containment) and `Wrappers` (`Option`).

The behaviour that depends on I/O is a parameter of the model:

- DOM element offsets are a map from id to `offsetTop`.
- The scroll position and the click location are parameters.
- The `fetch` outcome is `ResponseOk | ResponseNotOk | RequestFailed`.
- The mail transport outcome is `Delivered | SendFailed`.
- The body-parse failure is a `RequestBody` case.
- The "now" timestamp and the `toLocaleString()` text are parameters.

The code behaves as follows:

- The code has no `submitting` lifecycle value. `isSubmitting` is a separate flag, and `submitStatus` only takes the values idle, success and error. A valid submit resets the status to idle.
- The code does not fail closed when the mail credentials are missing. It uses a fallback account. The model keeps that branch but takes the fallback pair as an opaque parameter.
- The 3-second revert timers are never cancelled. `RevertStatus` can be fired by any earlier timer, and nothing in the model ties it to the submission that scheduled it.

## Model

| member | source | states |
|---|---|---|
| `ContactForm.ValidateFieldVerdicts` | src/components/Contact.tsx:63-81 | Name is accepted iff its trimmed length is at least 2. Message is accepted iff its trimmed length is at least 10. Lengths are JavaScript `length`s, counted in UTF-16 code units. Email is accepted iff the raw value matches the pattern. A blank value gives the field's "Please enter …" message. A trimmed name of length 1, a trimmed message of length 1–9, or a non-blank malformed address gives the specific message. |
| `ContactForm.ValidEmailExample` | src/components/Contact.tsx:69-73 | `a@b.co` is accepted. |
| `ContactForm.EmojiNameExample` | src/components/Contact.tsx:65-68 | A name made of one emoji (two UTF-16 code units) is accepted. |
| `ContactForm.InvalidEmailExample` | src/components/Contact.tsx:69-73 | `not-an-email` gets "Please enter a valid email address". |
| `ContactForm.ShortNameExample` | src/components/Contact.tsx:65-68 | A name that is one character once trimmed gets "Name must be at least 2 characters". |
| `ContactForm.CollectErrors` | src/components/Contact.tsx:116-124 | The loop builds an `errors` object with a key for exactly the failing fields, each holding that field's message. |
| `ContactForm.ErrorsForUnique` | src/components/Contact.tsx:117-126 | The verdicts determine the `errors` object completely. |
| `ContactForm.NoErrorsIffAllValid` | src/components/Contact.tsx:129-132 | `Object.keys(newErrors).length` is 0 exactly when all three fields pass. |
| `ContactForm.ContactController.constructor` | src/components/Contact.tsx:48-61 | The initial state has empty values, no errors, nothing touched, not submitting and an idle status. |
| `ContactForm.ContactController.HandleInputChange` | src/components/Contact.tsx:83-97 | Only the named field's value changes. Its error becomes `''` only if it was non-empty. Other errors, all `touched` flags and the submission state are unchanged. The field's inline error is hidden. |
| `ContactForm.ContactController.HandleBlur` | src/components/Contact.tsx:99-111 | `touched[f]` becomes true and `errors[f]` becomes `validateField(f, value)`. The inline error shows iff that verdict is non-empty. Nothing else changes. |
| `ContactForm.ContactController.HandleSubmit` | src/components/Contact.tsx:113-136 | `errors` holds exactly the failing fields' messages and all fields are touched. Each inline error shows iff its field fails. A request carrying the form is issued iff every field passes. Only then does `isSubmitting` become true and the status become idle. Otherwise both keep their old values. |
| `ContactForm.ContactController.HandleResponse` | src/components/Contact.tsx:137-167 | An ok response gives success and clears the values, errors and touched flags. A non-ok response or a thrown failure gives error and keeps everything the visitor typed. `isSubmitting` is false in every outcome. |
| `ContactForm.ContactController.RevertStatus` | src/components/Contact.tsx:157-164 | A fired 3-second timer sets the status to idle and changes nothing else. |
| `ContactForm.SuccessfulSubmission` | src/components/Contact.tsx:134-167 | After a valid submit and an ok response, no inline error is shown and the submit button is enabled. An invalid submit leaves the status and the values as they were. |
| `EmailPattern.ValidEmailIffMatches` | src/components/Contact.tsx:71-72 | The value matches the pattern iff all of these hold: it has no white space, it has exactly one '@' with a non-empty part before it, and the part after the '@' contains a '.' with text on both sides. |
| `Text.Trim` | src/components/Contact.tsx:66-67 | `trim()` gives the empty string iff the value is all white space. Otherwise the result neither starts nor ends with white space. |
| `Text.TrimStartSpec` | src/components/Contact.tsx:66-67 | Dropping leading white space leaves a suffix of the input, removes only white space, and leaves no white space at the front. |
| `Text.TrimEndSpec` | src/components/Contact.tsx:66-67 | Dropping trailing white space leaves a prefix of the input, removes only white space, and leaves no white space at the end. |
| `Text.TrimIsSlice` | src/components/Contact.tsx:66-67 | The trimmed value is a contiguous slice of the input, with only white space cut on either side. |
| `Text.Utf16LengthBounds` | src/components/Contact.tsx:67 | `length` counts UTF-16 code units: at least the number of characters, at most twice as many, and 0 only for the empty string. |
| `Text.Utf16LengthBmp` | src/components/Contact.tsx:76 | For text within the Basic Multilingual Plane, `length` equals the number of characters. |
| `Text.TrimIdempotent` | src/components/Contact.tsx:66-67 | Trimming twice gives the same result as trimming once. |
| `Text.ParseNatToString` | src/components/Experience.tsx:72 | A number written into a template literal reads back as the same number. |
| `ContactRoute.ResolveCredentials` | src/app/api/contact/route.ts:38-51 | The environment pair is used iff both `EMAIL_USER` and `EMAIL_PASS` are non-empty. Otherwise the configured fallback pair is used. |
| `ContactRoute.ServerError` | src/app/api/contact/route.ts:115-130 | The response is 500. For an `Error`, `error` and `details` are both its message. For any other thrown value they are "Failed to send email" and "Unknown error". |
| `ContactRoute.Post` | src/app/api/contact/route.ts:4-131 | The status is 200, 400 or 500. The transport is called iff the body parsed, all three fields are truthy and the address matches the pattern. The status is 200 iff that call completed, and the body is then "Email sent successfully". The status is 400 iff the body parsed and no mail was attempted. A failed send gives the 500 response built from the thrown value. A body-parse failure is a 500. |
| `ContactRoute.MissingFieldsFirst` | src/app/api/contact/route.ts:12-18 | Any falsy field gives 400 "Missing required fields" and no mail, whatever the address is. |
| `ContactRoute.InvalidEmailRejected` | src/app/api/contact/route.ts:21-27 | With all fields present, an address the pattern rejects gives 400 "Invalid email format" and no mail. |
| `ContactRoute.DeliveredMail` | src/app/api/contact/route.ts:54-109 | The transport authenticates with the resolved account. `from` and `to` are both that account. The subject is "New Contact Form Submission from " + name. Both bodies contain the name, the address and the message. |
| `ContactRoute.MailNamesFields` | src/app/api/contact/route.ts:66-105 | The HTML and text bodies each embed all three submitted fields. |
| `ContactRoute.AddressingIgnoresVisitor` | src/app/api/contact/route.ts:63-65 | The sender and the recipient do not depend on anything the visitor submitted. |
| `ContactRoute.AcceptedExample` | src/app/api/contact/route.ts:109-114 | A well-formed submission that is delivered gets 200 "Email sent successfully". |
| `ContactRoute.MissingNameExample` | src/app/api/contact/route.ts:12-18 | An empty name gets 400 "Missing required fields". |
| `ContactRoute.MalformedAddressExample` | src/app/api/contact/route.ts:21-27 | `not-an-email` gets 400 "Invalid email format". |
| `Layout.ScrollTop` | src/components/Hero.tsx:17-23 | The scroll target is `max(0, offsetTop − 64)`: it is never negative, and it is never less than `offsetTop − 64`. |
| `Hero.ScrollToSection` | src/components/Hero.tsx:14-25 | The page scrolls iff the element exists, and then to the clamped position. |
| `Hero.FloatingTextIndex` | src/components/Hero.tsx:191 | `(currentText + i) % texts.length` is always a valid index and is congruent to `currentText + i`. |
| `Hero.Typewriter.constructor` | src/components/Hero.tsx:29-31 | The typewriter starts at text 0, character 0, typing. |
| `Hero.Typewriter.Tick` | src/components/Hero.tsx:51-62 | Each timer step preserves `currentText < 10` and `currentChar ≤ |texts[currentText]|`. The four branches type one character, schedule the pause at a full text, delete one character, or move to `(currentText + 1) % 10` and start typing. |
| `Hero.Typewriter.EndPause` | src/components/Hero.tsx:55 | The pause timer only sets `isDeleting`. |
| `Hero.FirstMatch` | src/components/Hero.tsx:79-87 | Returns the first name in the priority list that starts at the position, with none of the earlier names starting there. |
| `Hero.NameAt` | src/components/Hero.tsx:79-87 | A highlighted name is one of the listed names and starts at the position. |
| `Hero.NoNameAt` | src/components/Hero.tsx:74-78 | No name is highlighted iff none of the listed names starts at the position. |
| `Hero.PrintShadowsLongerNames` | src/components/Hero.tsx:79-87 | Where "println" or "printf" starts, "print" is chosen, because it comes first in the selection chain. |
| `Hero.StringPart` | src/components/Hero.tsx:115-135 | A string part runs from the quote to the closing quote if that quote is typed, or else to the end of the typed text. It is a non-empty slice of the input. When it stops before the end of the typed text, it ends with the closing quote. |
| `Hero.StringPartStops` | src/components/Hero.tsx:115-135 | The part stops at the first closing quote: no character strictly between the opening quote and its end is that quote. |
| `Hero.NamePart` | src/components/Hero.tsx:89-103 | A fully typed name becomes a whole part. A cut-off name becomes its typed prefix and ends the scan. The part is a prefix of the name and a slice of the text. |
| `Hero.NextPart` | src/components/Hero.tsx:73-162 | Each part is the input slice between the old and new positions. It is non-empty, strictly advances the scan, and holds text of its kind. |
| `Hero.ScanString` | src/components/Hero.tsx:115-135 | The inner loop computes exactly the string part. |
| `Hero.TakePart` | src/components/Hero.tsx:73-162 | One pass of the outer loop computes exactly the next part. |
| `Hero.TokensStep` | src/components/Hero.tsx:72-163 | Appending the next part keeps the parts emitted so far, followed by the remaining parts, equal to the whole result. |
| `Hero.TokensCover` | src/components/Hero.tsx:68-166 | The parts from any position, joined, equal the typed text from that position. |
| `Hero.TokensWellFormed` | src/components/Hero.tsx:89-162 | Every part is non-empty and holds what its kind allows. |
| `Hero.TokensReassemble` | src/components/Hero.tsx:68-166 | Joined, `parseCode`'s parts are exactly the first `min(currentChar, |text|)` characters. No part is empty. Nothing is produced when `currentChar = 0`. |
| `Hero.ParseCode` | src/components/Hero.tsx:68-166 | The `while` loop produces exactly the specified parts. |
| `Experience.ParseFormatPeriod` | src/components/Experience.tsx:39-58 | The label reads back as exactly the start month and year and the end month and year (or no end). The one-year form "sM — eM Y" is included. Only the canonical form reads back: a label naming two years must name different ones, so the label takes the one-year form exactly when both ends share a year. |
| `Experience.SameYearLongFormRejected` | src/components/Experience.tsx:53-57 | A label of the two-year shape naming the same year twice does not read back, because equal years always get the one-year form. |
| `Experience.PresentIffOngoing` | src/components/Experience.tsx:44-46 | The label ends in "— PRESENT" iff the period has no end date. |
| `Experience.DiffDays` | src/components/Experience.tsx:64-65 | The day count is the least number of whole days that covers the millisecond difference. |
| `Experience.DiffDaysSymmetric` | src/components/Experience.tsx:64 | Swapping the start and the end does not change the day count. |
| `Experience.Shown` | src/components/Experience.tsx:66-81 | The shown span is years of twelve 30-day months plus the leftover months, or else months, or else days, each rounded down. |
| `Experience.ParseDurationWords` | src/components/Experience.tsx:69-81 | The duration text reads back as exactly that span. Each unit gets an "s" iff its count is above 1, and months appear beside years only when there are some. A year or month count of 0 does not read back, so a unit with nothing to count is left out. |
| `Experience.ZeroCountsRejected` | src/components/Experience.tsx:69-81 | "N years 0 months", "0 years N months", "0 years" and "0 months" do not read back: a year or month count of 0 is never shown. |
| `Experience.GetDurationShows` | src/components/Experience.tsx:60-82 | `getDuration` shows the span of the period's day count. The current time is the end when there is no end date. |
| `Experience.MonthOfName` | src/components/Experience.tsx:41 | Each short month name identifies its month. |
| `About.CategoryNamesDistinct` | src/components/About.tsx:13-19 | The categories have distinct keys and distinct headings. Every heading except "Tools & DevOps" differs from its key only in the first letter. |
| `About.SkillIcon` | src/components/About.tsx:35-64 | Each of the four named keys gets its own icon. Any other string gets the 'other' icon. |
| `About.GroupSkills` | src/components/About.tsx:27-33 | The reduce creates one group per category in order of first appearance. Each group is that category's skills in input order. |
| `About.SkillsInAppend` | src/components/About.tsx:31 | A group is the order-preserving filter of the skills by category. |
| `About.SkillsInOfCategory` | src/components/About.tsx:27-33 | A group contains only skills of its own category that are in the input. |
| `About.SkillInOwnGroup` | src/components/About.tsx:27-33 | Every skill is in the group of its own category. |
| `About.NotGroupedIsEmpty` | src/components/About.tsx:28-30 | A category that never occurs has no group. |
| `About.CategoriesDistinct` | src/components/About.tsx:28-30 | Groups are listed once each, exactly for the categories that occur. |
| `About.GroupSizesSum` | src/components/About.tsx:27-33 | The group sizes add up to the number of skills. |
| `About.SummaryCounts` | src/components/About.tsx:147 | The summary line's counts are the number of skills (the total of the group sizes) and the number of distinct categories (the number of groups). |
| `About.FirstOfIsFirst` | src/components/About.tsx:28-29 | The first-appearance position of a category holds a skill of that category, and no earlier skill has it. It equals the number of skills exactly when the category does not occur. |
| `About.CategoriesInFirstAppearanceOrder` | src/components/About.tsx:28-29 | Groups are listed in strictly increasing order of each category's first occurrence. |
| `Navbar.SectionIds` | src/components/Navbar.tsx:32 | The section ids are the nav items' ids, in order. |
| `Navbar.LastReached` | src/components/Navbar.tsx:35-41 | Returns the last section that exists with `offsetTop ≤ position`, with no later section reached. It returns none iff no section is reached. |
| `Navbar.SelectActive` | src/components/Navbar.tsx:35-41 | The reverse loop with `break` picks exactly that section, or keeps the current one. |
| `Navbar.ActiveIsContainingSection` | src/components/Navbar.tsx:32-41 | With all sections present and laid out top to bottom, the active section is the one whose span contains the detection position. |
| `Navbar.RemoveFirstAt` | src/components/Navbar.tsx:54 | `replace('#', '')` removes only the first '#'. |
| `Navbar.RemoveFirstAbsent` | src/components/Navbar.tsx:54 | A string without '#' is left unchanged. |
| `Navbar.HrefToIdOfFragment` | src/components/Navbar.tsx:54 | `#id` points to `id`, and every nav item's href points to its own id. |
| `Navbar.NavClickTarget` | src/components/Navbar.tsx:54-67 | The page scrolls iff the target element exists, and then to `max(0, offsetTop − 64)`. |
| `Navbar.NavbarState.constructor` | src/components/Navbar.tsx:21-23 | The menu starts closed, "home" is active, and the bar is not scrolled. |
| `Navbar.NavbarState.HandleScroll` | src/components/Navbar.tsx:27-42 | `isScrolled` holds iff `scrollY > 0`. The active section is the last one reached at `scrollY + 80`, or is unchanged. The menu is untouched. |
| `Navbar.NavbarState.HandleNavClick` | src/components/Navbar.tsx:52-70 | Returns the scroll target (if any). The menu is closed in every case. |
| `Navbar.NavbarState.ToggleMenu` | src/components/Navbar.tsx:132 | The menu state flips. |
| `Navbar.NavbarState.DocumentClick` | src/components/Navbar.tsx:73-86 | A click closes an open menu unless it landed inside the bar. With the menu closed, nothing listens. |
| `Projects.VisibleTech` | src/components/Projects.tsx:137 | A card shows the first `min(3, n)` technologies, in order. |
| `Projects.MoreBadge` | src/components/Projects.tsx:146-151 | The "+N more" badge appears iff `n > 3`. |
| `Projects.CardAccountsForAllTech` | src/components/Projects.tsx:137-151 | The shown technologies plus the badge's count equal `n`, and the badge's number reads back as `n − 3`. |
| `Projects.ModalSections` | src/components/Projects.tsx:258-300 | The description is always shown. The technologies section is shown iff the list is non-empty, and so is the links section. The links section comes last. |
| `Projects.ProjectsView.ModalProject` | src/components/Projects.tsx:216 | The modal is rendered iff it is open and a project is selected, and it shows that project. |
| `Projects.ProjectsView.ModalShowsSelection` | src/components/Projects.tsx:216 | While a project is selected exactly when the modal is open and the page is locked exactly then, the modal shows exactly the selected project, and it is rendered iff the page is locked. |
| `Projects.ProjectsView.constructor` | src/components/Projects.tsx:78-79 | Nothing is selected and the modal is closed. |
| `Projects.ProjectsView.OpenModal` | src/components/Projects.tsx:81-85 | Selects the project, opens the modal and sets the overflow to hidden. The modal then shows that project. |
| `Projects.ProjectsView.CloseModal` | src/components/Projects.tsx:87-91 | Closes the modal, deselects the project and unsets the overflow. The modal is then not rendered. |

## Left out

- JSX markup, CSS classes, SVG icons and layout are presentation only. The icons are represented by the `About.Icon` names.
- `fetch`, `response.json()`, `request.json()`, the nodemailer transport and `navigator.clipboard` are foreign I/O. They appear as outcome parameters. `copyEmailToClipboard` (src/components/Contact.tsx:170-177) is not modelled, because it only writes to the clipboard or logs.
- `console.log` and `console.error` calls are logging only.
- `ContactRoute.ResolveCredentials`: the literal fallback account in the source is a configuration value and is not reproduced. It is the `fallback` parameter.
- `ContactRoute.Post`: body fields are modelled as absent/null or a string. JSON numbers, booleans and objects (and the `substring` call on a non-string message at src/app/api/contact/route.ts:9) are not modelled.
- `Experience.GetDurationShows`: `Date` parsing, `toLocaleDateString`, time zones and invalid dates are not modelled. A period is given as month index, full year and millisecond timestamp, and "now" is a parameter. An empty-string end date, which the source treats as "no end", is the `None` case.
- `Experience.DiffDays`: the floating-point division is modelled as exact integer ceiling division over an integer millisecond difference.
- `ContactRoute.Post`: the `toLocaleString()` timestamp is an opaque string parameter. The handler calls `new Date().toLocaleString()` separately for the HTML body and the text body (route.ts:88 and :103). The model passes one `sentOn` to both, so it does not capture the two timestamps differing.
- `ContactForm.ContactController.RevertStatus`: `setTimeout` delays are events, not time. Earlier timers are never cancelled in the source, so the model makes no claim about which submission a revert belongs to.
- `Hero.Typewriter.EndPause`: the 2-second pause is an event, and the typing and deleting speeds (100 ms and 50 ms) are not modelled. The effect's re-run on each render is not modelled either.
- `About.SkillIcon`: the lookup is modelled over the five own keys. Inherited `Object.prototype` property names (such as "toString") are not modelled.
- `Navbar.NavbarState.HandleScroll`: `scrollY` is an integer here. The browser's value can be fractional.
- `ContactForm.ContactController.HandleSubmit`: the browser's own `required` and `type="email"` checks, which run before `handleSubmit`, are not modelled.
- `Hero.TokensReassemble`: positions count characters. The source indexes UTF-16 code units, and the two agree on the ten ASCII texts the animation types.
- `Text.IsSpace`: one fixed character set stands for both `\s` and `trim()`. It is the ECMAScript WhiteSpace and LineTerminator set.
- src/components/CursorLight.tsx, src/components/ScrollbarHandler.tsx and src/components/ScrollAnimation.tsx are cosmetic event listeners and are not part of this model.
- src/app/api/test-env/route.ts, next.config.ts and src/app/page.tsx (static data) are not part of this model.
