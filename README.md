# Portfolio site logic, modelled in Dafny

This project models the logic inside a personal portfolio web site. The site
is otherwise mostly presentational. It proves properties of six parts:

- **The portfolio contact form** (`app/folio/Contact/Contact.tsx`, module
  `Contact`). It covers the three-field validator, the submit, change and
  blur handlers, and the choice of the field that receives focus after a
  failed submit. The component state `formData`, `formErrors`, `formStatus`
  and `statusMessage` is a class whose handlers overwrite it. The result of
  the `fetch` is an input: an ok response, a response that is not ok, or an
  exception.
- **The e-mail pattern** `/^[^\s@]+@[^\s@]+\.[^\s@]+$/` (module
  `EmailPattern`). It is stated as the split the pattern describes.
  Validation runs an executable scanner, which is proved to accept exactly
  the matching strings.
- **The design-token flattener** (`app/tokens/build-tokens.js`, module
  `DesignTokens`).
  - `extractValue` is a function.
  - `processTokens` is a class method whose loop appends to the `css`
    accumulator. It is proved equal to a recursive specification, which
    writes one line per token in depth-first order.
  - `Object.entries` ordering is modelled: integer-like keys come first, in
    ascending order.
  - The unit suffixing is modelled as the script performs it. On a numeric
    token whose name holds both a pixel-length fragment and `size`, the
    script writes `NaNrem` (see "## Findings"). The walk writes that line
    too. `Unitize` is the corrected step, and its relation to the script's
    step is proved.
- **The footer contact form** (`src/footer/contact-form.tsx`, module
  `FooterContactForm`). It covers the `encode` function, built on
  `encodeURIComponent` (module `UriComponent`), the component state and its
  change handler, and the body that the submit handler posts. Decoding is
  proved to undo encoding on every string, so a receiver reads back every
  pair of every body.
- **The theme reducer** (`src/ThemeContext.tsx`, module `Theme`).
- **The mobile navigation toggle** (`src/navigation/mobile-navigation.tsx`
  and its menu content, module `MobileNav`).
- **The design-system `Link`** (`app/components/design-system/Link/Link.tsx`,
  module `LinkDispatch`). It decides the class list, the kind of element
  rendered, and that element's attributes.

Supporting modules:

- `Text` holds JavaScript's whitespace class together with `trim`,
  `includes`, `replace`, `toUpperCase`, `join` and `split`.
- `Fields` holds the `{ name, email, message }` record that both forms keep.
- `Results` holds `Option`, `Result` and the two JavaScript exceptions the
  code can throw.

`handleChange` leaves the `success` status in place while the fields fill up
again; `Contact.ContactForm.HandleChange` states this.

## Model

| member | source | states |
|---|---|---|
| Contact.NameError | app/folio/Contact/Contact.tsx:32-35 | the name error is either empty or "Name is required" |
| Contact.EmailError | app/folio/Contact/Contact.tsx:38-44 | the e-mail error is empty, "Email is required" or the invalid-address message |
| Contact.MessageError | app/folio/Contact/Contact.tsx:47-53 | the message error is empty, "Message is required" or the too-short message |
| Contact.NameErrorSpec | app/folio/Contact/Contact.tsx:32-35 | the name error is "Name is required" exactly when the name is all whitespace, and empty otherwise |
| Contact.EmailErrorSpec | app/folio/Contact/Contact.tsx:38-44 | "Email is required" exactly for an all-whitespace value; no error exactly when the untrimmed value matches the pattern; the invalid-address message otherwise |
| Contact.EmailWithSurroundingSpaceRefused | app/folio/Contact/Contact.tsx:41 | a value that starts or ends with whitespace always gets an e-mail error, because the pattern is applied to the untrimmed value |
| Contact.MessageErrorSpec | app/folio/Contact/Contact.tsx:47-53 | "Message is required" exactly for an all-whitespace value; the too-short message exactly for a non-blank value whose trimmed `length` (UTF-16 code units) is below 10; no error exactly when that length is 10 or more |
| Contact.AstralCharactersCountTwice | app/folio/Contact/Contact.tsx:50 | five characters outside the Basic Multilingual Plane make a message long enough, since `length` counts each as two code units |
| Contact.FieldErrors | app/folio/Contact/Contact.tsx:23-57 | every error string in the record that `validateForm` builds is empty or one of the messages its own field can show |
| Contact.ValidDataSpec | app/folio/Contact/Contact.tsx:23-57 | a record passes validation exactly when the name is not blank, the e-mail matches the pattern, and the trimmed message is at least 10 UTF-16 code units long |
| Contact.CheckFields | app/folio/Contact/Contact.tsx:24-53 | the step-by-step filling of `errors` and clearing of `isValid` yields the per-field error record, and `isValid` holds exactly when all three errors are empty |
| Contact.FirstError | app/folio/Contact/Contact.tsx:64-70 | the first field in form order with a non-empty error; none exactly when all errors are empty |
| Contact.FailedValidationHasFocus | app/folio/Contact/Contact.tsx:64-71 | after a failed validation there is always a field to focus |
| Contact.ContactForm.constructor | app/folio/Contact/Contact.tsx:8-19 | all fields and errors start empty, with status idle and an empty banner |
| Contact.ContactForm.ValidateForm | app/folio/Contact/Contact.tsx:23-57 | only `formErrors` changes, and it becomes the error record of `formData`; returns true exactly when that record is all empty |
| Contact.ContactForm.BeginSubmit | app/folio/Contact/Contact.tsx:85-96 | the data is kept; the request goes out exactly when the data is valid, with status submitting and an empty banner; otherwise the status becomes error with the correction banner |
| Contact.ContactForm.ReceiveResponse | app/folio/Contact/Contact.tsx:115-138 | an ok response empties data and errors, sets success and shows the thank-you text; a response that is not ok, or a thrown exception, keeps data and errors and shows the retry text with status error |
| Contact.ContactForm.HandleSubmit | app/folio/Contact/Contact.tsx:85-139 | the three outcomes of a whole submit: invalid data, a valid send with an ok response, and a valid send that fails |
| Contact.ContactForm.HandleChange | app/folio/Contact/Contact.tsx:141-159 | only the named field's value changes; only that field's error is cleared; error status becomes idle with an empty banner; any other status and banner stay |
| Contact.ContactForm.HandleBlur | app/folio/Contact/Contact.tsx:161-177 | data, status and name error are untouched and no error is cleared; a non-blank e-mail the pattern refuses gets the invalid error; a non-blank message whose trimmed `length` is below 10 UTF-16 code units gets the too-short error; every other blur changes nothing |
| Contact.ContactForm.FocusTarget | app/folio/Contact/Contact.tsx:60-71 | focus goes only to a field with an error, and only while the status is error; while the status is error and some error is non-empty, some field is focused |
| EmailPattern.ScannerMatchesPattern | app/folio/Contact/Contact.tsx:41 | the scanner accepts a string exactly when `^[^\s@]+@[^\s@]+\.[^\s@]+$` matches it |
| EmailPattern.IsEmailAddress | app/folio/Contact/Contact.tsx:41 | the executable test of the pattern; `EmailPattern.ScannerMatchesPattern` proves it accepts exactly the matches |
| EmailPattern.ScannerMatchesShape | app/folio/Contact/Contact.tsx:41 | the scanner accepts exactly the strings with a single `@` that has plain characters before it and a dotted host after it |
| EmailPattern.ShapeGivesMatch | app/folio/Contact/Contact.tsx:41 | such a split is a match of the pattern |
| EmailPattern.MatchGivesShape | app/folio/Contact/Contact.tsx:41 | every match of the pattern has such a split |
| EmailPattern.MatchHasNoSpace | app/folio/Contact/Contact.tsx:41 | a matched string holds no whitespace anywhere |
| Fields.FormFields.Set | app/folio/Contact/Contact.tsx:143-146 | `{ ...record, [name]: value }`: the named field takes the value and the other two keep theirs |
| Text.Trim | app/folio/Contact/Contact.tsx:32 | `trim()` never lengthens a string; `Text.TrimSpec` and `Text.TrimEmptyIff` state what it removes |
| Text.Utf16Length | app/folio/Contact/Contact.tsx:50 | `length` counts UTF-16 code units: at least one and at most two per character |
| Text.Utf16LengthBmp | app/folio/Contact/Contact.tsx:50 | `length` equals the character count exactly when no character lies outside the Basic Multilingual Plane |
| Text.TrimSpec | app/folio/Contact/Contact.tsx:50 | `trim()` cuts a string into leading whitespace, the result and trailing whitespace, and the result neither starts nor ends with whitespace |
| Text.TrimEmptyIff | app/folio/Contact/Contact.tsx:32 | `trim()` is empty exactly when the string is all whitespace |
| Text.ReplaceAll | app/tokens/build-tokens.js:41 | `replace(/\//g, '-')` keeps the length and swaps each `/` for `-`, leaving every other character as it is |
| Text.ToUpper | app/tokens/build-tokens.js:51 | `toUpperCase()` maps each character and leaves no lower-case ASCII letter |
| Text.SplitJoin | app/components/design-system/Link/Link.tsx:74 | splitting `join(sep)` at the separator gives back the pieces, provided no piece holds the separator |
| UriComponent.EncodeURIComponent | src/footer/contact-form.tsx:16 | an encoding is never shorter than its input; `UriComponent.EncodedAlphabet` and `UriComponent.DecodeEncode` state its alphabet and its inverse |
| UriComponent.EncodedAlphabet | src/footer/contact-form.tsx:16 | every character of `encodeURIComponent(s)` is unreserved, `%` or an upper-case hexadecimal digit |
| UriComponent.NoFormSeparators | src/footer/contact-form.tsx:16 | an encoded component never holds `&` or `=` |
| UriComponent.DecodeEncode | src/footer/contact-form.tsx:16 | `decodeURIComponent(encodeURIComponent(s)) == s` for every string |
| FooterContactForm.Pairs | src/footer/contact-form.tsx:15-16 | one `key=value` segment per key, in key order, each made of the encoded key and value |
| FooterContactForm.PairSplits | src/footer/contact-form.tsx:16 | a segment splits at its only `=` into the encoded key and the encoded value |
| FooterContactForm.ParsePairOfPair | src/footer/contact-form.tsx:16 | a segment decodes back to its key and value |
| FooterContactForm.ParsePairsOfPairs | src/footer/contact-form.tsx:15-16 | the list of segments decodes back to the whole record, in order |
| FooterContactForm.Encode | src/footer/contact-form.tsx:14-18 | `encode`: the encoded pairs joined with `&`; its properties are `FooterContactForm.EncodeEmptyIff`, `FooterContactForm.EncodeSegments` and `FooterContactForm.ParseEncode` |
| FooterContactForm.PairHasNoAmpersand | src/footer/contact-form.tsx:16 | a segment never holds `&` |
| FooterContactForm.EncodeEmptyIff | src/footer/contact-form.tsx:14-18 | `encode` gives the empty string exactly for the empty record |
| FooterContactForm.EncodeSegments | src/footer/contact-form.tsx:14-18 | splitting a non-empty body at `&` gives exactly one segment per key, and each segment splits at its `=` into the encoded pair |
| FooterContactForm.ParseEncode | src/footer/contact-form.tsx:14-18 | reading a body back recovers the encoded record: no key or value is lost, altered or reordered |
| FooterContactForm.EncodeUnreserved | src/footer/contact-form.tsx:16 | a string of unreserved characters is its own encoding |
| FooterContactForm.PlainPair | src/footer/contact-form.tsx:16 | a key and a value made of unreserved characters are written as `key=value` without escapes |
| FooterContactForm.EncodeStartsWith | src/footer/contact-form.tsx:14-18 | a body of two or more pairs begins with its first pair and `&` |
| FooterContactForm.KeyOf | src/footer/contact-form.tsx:67-93 | no input is named `form-name` |
| FooterContactForm.Submission | src/footer/contact-form.tsx:56 | `{ "form-name": "contact", ...this.state }` holds four pairs: the hidden pair first, then each input's value under its name |
| FooterContactForm.LookupSubmission | src/footer/contact-form.tsx:56 | each input's value is found under its name in the submission |
| FooterContactForm.SubmitBody | src/footer/contact-form.tsx:56 | the posted body, the encoding of the submission; `FooterContactForm.SubmitBodyParses` and `FooterContactForm.BodyStartsWithFormName` state what it holds |
| FooterContactForm.SubmitBodyParses | src/footer/contact-form.tsx:53-57 | reading the posted body back gives the hidden pair and the three values, in order |
| FooterContactForm.BodyStartsWithFormName | src/footer/contact-form.tsx:56 | the posted body starts with `form-name=contact&` |
| FooterContactForm.ChangeReachesBody | src/footer/contact-form.tsx:32-36 | after a change, the body posted next carries the new value under the changed input's name and the old values under the other names |
| FooterContactForm.AlertText | src/footer/contact-form.tsx:45-52 | the alert text, the three values between the fixed phrases; `FooterContactForm.ContactForm.HandleSubmit` returns it |
| FooterContactForm.ContactForm.constructor | src/footer/contact-form.tsx:21-27 | the name, e-mail and message all start as the empty string |
| FooterContactForm.ContactForm.HandleChange | src/footer/contact-form.tsx:32-36 | only the input named by the event changes |
| FooterContactForm.ContactForm.HandleSubmit | src/footer/contact-form.tsx:44-57 | returns the alert text and the posted body of the current state, and leaves the state unchanged |
| Theme.ModeOf | src/ThemeContext.tsx:9-13 | only `LIGHTMODE` and `DARKMODE` install a state, and that state's theme is one of the two theme strings |
| Theme.Reduce | src/ThemeContext.tsx:8-17 | `LIGHTMODE` gives `theme-light` and `DARKMODE` gives `theme-dark`, whatever the prior state; any other action returns the state unchanged |
| Theme.LastMode | src/ThemeContext.tsx:8-17 | the latest mode action in a sequence selects one of the two themes |
| Theme.ReduceIdempotent | src/ThemeContext.tsx:8-17 | dispatching an action twice equals dispatching it once |
| Theme.ReduceAllSnoc | src/ThemeContext.tsx:22 | dispatching one more action applies the reducer to the state reached so far |
| Theme.LatestModeWins | src/ThemeContext.tsx:8-17 | after any sequence of dispatches, the theme is the one the latest mode action selects, or the starting state when there is no mode action |
| Theme.ReachableThemes | src/ThemeContext.tsx:4-17 | starting from the initial state, the theme is always `theme-dark` or `theme-light` |
| MobileNav.Toggle | src/navigation/mobile-navigation.tsx:20-22 | the updater negates `isToggleOn` |
| MobileNav.ToggleTwice | src/navigation/mobile-navigation.tsx:19-23 | two clicks restore the state |
| MobileNav.ClickParity | src/navigation/mobile-navigation.tsx:19-23 | after n clicks the menu is open exactly when it started closed and n is odd, or started open and n is even |
| MobileNav.Render | src/navigation/mobile-navigation.tsx:27-38 | the nav attribute, the button and the content panel all show the same `isToggleOn` |
| MobileNav.MobileNavigation.constructor | src/navigation/mobile-navigation.tsx:12-14 | the menu starts closed |
| MobileNav.MobileNavigation.HandleMenuClick | src/navigation/mobile-navigation.tsx:19-23 | a click replaces the state with its toggle and changes nothing else |
| MobileNav.MobileMenuContent.constructor | src/navigation/mobile-navigation.tsx:34-38 | the content is given the navigation's own click handler |
| MobileNav.MobileMenuContent.HandleMenuClick | src/navigation/mobile-menu-content/mobile-menu-content.tsx:13-17 | a link click toggles the navigation's state when a handler was passed, so it closes an open menu |
| LinkDispatch.Truthy | app/components/design-system/Link/Link.tsx:73 | `filter(Boolean)` keeps every non-empty entry and nothing else |
| LinkDispatch.TruthyAppend | app/components/design-system/Link/Link.tsx:73 | filtering keeps order and multiplicity: filtering a concatenation concatenates the filtered parts |
| LinkDispatch.TruthySingle | app/components/design-system/Link/Link.tsx:73 | one entry is kept exactly when it is non-empty |
| LinkDispatch.ClassName | app/components/design-system/Link/Link.tsx:67-74 | the class attribute, the kept classes joined with spaces; `LinkDispatch.ClassNameSplits` and `LinkDispatch.BlockLayoutClass` state what it lists |
| LinkDispatch.Link | app/components/design-system/Link/Link.tsx:76-126 | external links and downloads give an anchor whose target, rel, download, label and icon follow the props; other `#` links give a bare anchor; everything else gives a router link; class, href and children are always passed through |
| LinkDispatch.VariantDefault | app/components/design-system/Link/Link.tsx:55 | leaving out `variant` is the same as passing `inline` |
| LinkDispatch.BlockLayoutDefault | app/components/design-system/Link/Link.tsx:56 | leaving out `blockLayout` is the same as passing `false` |
| LinkDispatch.ExternalDefault | app/components/design-system/Link/Link.tsx:58 | leaving out `external` is the same as passing `false` |
| LinkDispatch.NewTabIffExternal | app/components/design-system/Link/Link.tsx:82-83 | `target="_blank"` and `rel="noopener noreferrer"` each appear exactly when the link is external |
| LinkDispatch.ExternalIsLabelled | app/components/design-system/Link/Link.tsx:85 | an external link always has a non-empty accessible label |
| LinkDispatch.RouterIff | app/components/design-system/Link/Link.tsx:77-126 | the router link is used exactly for links that are not external, not downloads and not `#` links |
| LinkDispatch.ClassNameSplits | app/components/design-system/Link/Link.tsx:67-74 | read back at its spaces, the class attribute lists the non-empty classes in order |
| LinkDispatch.BlockLayoutClass | app/components/design-system/Link/Link.tsx:70 | the block-layout class is listed exactly when `blockLayout` is set |
| DesignTokens.Prop | app/tokens/build-tokens.js:92 | reading a property throws a TypeError exactly on `null` and `undefined` |
| DesignTokens.Lookup | app/tokens/build-tokens.js:33 | a property read gives the value of the first member with that key, and `undefined` when no member has it |
| DesignTokens.SortByIndexSpec | app/tokens/build-tokens.js:87 | index-like keys are put in ascending order, and no member is lost or added |
| DesignTokens.Entries | app/tokens/build-tokens.js:87 | `Object.entries`; `DesignTokens.EntriesPermutes`, `DesignTokens.EntriesOrder` and `DesignTokens.EntriesInWrittenOrder` state its order |
| DesignTokens.EntriesPermutes | app/tokens/build-tokens.js:87 | `Object.entries` lists every member exactly once |
| DesignTokens.EntriesOrder | app/tokens/build-tokens.js:87 | index-like keys come first, in ascending numeric order |
| DesignTokens.EntriesInWrittenOrder | app/tokens/build-tokens.js:87 | without index-like keys, the entries are the members in the order they were written |
| DesignTokens.EntriesShallower | app/tokens/build-tokens.js:114-116 | every object the walk descends into nests less deeply than its parent |
| DesignTokens.VarRef | app/tokens/build-tokens.js:41-42 | the alias reference holds no `/` |
| DesignTokens.ExtractValue | app/tokens/build-tokens.js:32-81 | an alias gives `var(--…)` and wins over every type branch; a hex colour without an alpha below one gives the upper-cased hex; a dimension object gives its value and unit, with `px` as the default unit; numbers and unknown types give `$value` unchanged; a `null` or `undefined` token throws |
| DesignTokens.Round | app/tokens/build-tokens.js:29 | `Math.round` lies within half a unit of its argument |
| DesignTokens.PxToRem | app/tokens/build-tokens.js:26-30 | `pxToRem` with the base of 16; `DesignTokens.PxToRemClose` and `DesignTokens.PxToRemExact` state its accuracy |
| DesignTokens.PxToRemClose | app/tokens/build-tokens.js:26-30 | `pxToRem` is within half a thousandth of px/16 |
| DesignTokens.PxToRemExact | app/tokens/build-tokens.js:26-30 | whole thousandths of a rem come out exactly, so 16px gives 1rem |
| DesignTokens.UnitizeAsWritten | app/tokens/build-tokens.js:99-111 | the unit step the walk performs, case by case: non-numbers pass through; a pixel-length name alone gives `px`; `size` alone gives `rem`; both give `NaNrem`; neither leaves the number bare |
| DesignTokens.Unitize | app/tokens/build-tokens.js:99-111 | only numbers get a unit: `px` for names with a pixel-length fragment, else `rem` for names with `size`, else none; strings such as aliases never get a unit |
| DesignTokens.NaNremCounterexample | app/tokens/build-tokens.js:99-111 | as written, the script outputs the numeric token `spacing-size-4` with value 16 as `NaNrem` |
| DesignTokens.UnitizeKeepsNumber | app/tokens/build-tokens.js:99-111 | the corrected unit step always writes the number itself: bare, in `px`, or converted to `rem` |
| DesignTokens.AsWrittenAgreesOffOverlap | app/tokens/build-tokens.js:99-111 | the script as written and the corrected step differ exactly on numeric tokens whose name has both a pixel-length fragment and `size` |
| DesignTokens.TokenLine | app/tokens/build-tokens.js:92-113 | one token's line, `  --<path joined by '-'>: <value>;`, with the unit step as written, or the exception `extractValue` throws; the walk lemmas below state its place in the output |
| DesignTokens.EmitMember | app/tokens/build-tokens.js:88-117 | one entry of the walk: a `$` key writes nothing, a token writes its line, an object is descended into; `DesignTokens.EmitMemberIsRender` and `DesignTokens.TokenListUnder` state what it writes |
| DesignTokens.EmitListIsRender | app/tokens/build-tokens.js:86-119 | a walk that throws nothing writes one line per token, in depth-first entry order, each line with the unit step as the script performs it |
| DesignTokens.TokenListUnder | app/tokens/build-tokens.js:88-117 | `$` keys are never written or entered, and every line names a node with a defined `$value` |
| DesignTokens.TokensCssLines | app/tokens/build-tokens.js:83-123 | when `tokensToCss` does not throw, its text is the lines of the tokens in depth-first order, and every line's path has no `$` key |
| DesignTokens.TokenWriter.constructor | app/tokens/build-tokens.js:84 | the accumulator starts empty |
| DesignTokens.TokenWriter.ProcessTokens | app/tokens/build-tokens.js:86-119 | appends the object's walk, as the script performs it, to `css` and returns the exception it stops at, if any |
| DesignTokens.TokenWriter.ProcessEntries | app/tokens/build-tokens.js:87-118 | the loop over the entries appends exactly what the specified walk writes, and stops at the first exception |
| DesignTokens.TokenWriter.ProcessEntry | app/tokens/build-tokens.js:88-117 | one iteration of the loop: skip a `$` key, write a token's line (applying the `px` and the `rem` steps one after the other, as the script does), or descend into an object |
| DesignTokens.TokensToCss | app/tokens/build-tokens.js:83-123 | `tokensToCss` returns the specified CSS text, `NaNrem` lines included, or the exception the walk throws |

## Left out

- Network, timers, DOM focus and scrolling are left out. The `fetch` of
  the portfolio form becomes the `SendOutcome` input. The `setTimeout`
  focus and scroll effects are modelled only up to the choice of the field
  to focus (`FocusTarget`).
- `FormData` and `URLSearchParams` in the portfolio form's submit are left
  out. They are browser library calls, and the posted body is not
  observable in the component's state.
- The regular-expression engine is not modelled. The pattern's meaning is
  stated directly, and the scanner that decides it is proved equivalent.
- Strings are sequences of Unicode scalar values, so a lone surrogate
  cannot be written. The `URIError` that `encodeURIComponent` throws on
  one is not modelled.
- The whitespace class is ECMA-262's WhiteSpace and LineTerminator
  characters, written out. `trim` and `\s` share it.
- `Text.ToUpper` maps only ASCII letters. It does not model Unicode case
  mapping, such as `ß`, which `toUpperCase` expands to two letters.
- `DesignTokens.ExtractValue` takes the `rgba(…)` text of a colour with an
  alpha below one from a parameter. Computing it needs floating-point
  `Math.round` on the colour components.
- Number-to-string conversion and the loose `<` comparison of a string with
  `1` are parameters too. Numbers are real numbers rather than IEEE doubles,
  so `NaN`, infinities and rounding of the division in `pxToRem` are not
  modelled.
- Objects with duplicate keys are not merged. A property read uses the
  first member with the key, and the walk visits every member. `JSON.parse`
  keeps one property per key, holding the last value.
- Inside the walk there is a depth bound, which is always larger than any
  nesting the walk reaches (`EntriesShallower`). It only makes termination
  evident and never cuts the walk short.
- The source tests `radius` twice in its pixel-length test. The duplicate
  has no effect, and the model tests it once.
- `buildTokens` is left out. It reads and writes files, logs to the console
  and calls `process.exit`.
- In the footer form, `fetch`, both `alert` calls and `preventDefault` are
  left out. The alert text and the body are returned instead.
- `Link` children are taken to be a string. `onClick` and the rest of the
  props are passed through untouched and are not modelled.
- A theme action whose `type` is not a string behaves like an unknown
  string, which is how the `switch` treats it.
- React batches the `setState` calls of one handler. Each handler is
  modelled as one atomic step.

## Findings

| source | as written | input that shows it | evidently intended | confidence | as-written member | corrected member |
|---|---|---|---|---|---|---|
| app/tokens/build-tokens.js:99-111 | The `px` suffix and the `rem` conversion are two independent `if`s. A name that passes both tests gets `"16px"` first, and then `pxToRem("16px", 16)` divides a string and yields `NaN`. | the numeric token `spacing-size-4` with value 16 is written as `--spacing-size-4: NaNrem;` | one unit per number: `px` for pixel-length names, otherwise `rem` for `size` names (an `else if`) | not executed | DesignTokens.UnitizeAsWritten, DesignTokens.NaNremCounterexample | DesignTokens.Unitize, DesignTokens.UnitizeKeepsNumber, DesignTokens.AsWrittenAgreesOffOverlap |
