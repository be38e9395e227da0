# MinigamesHD application form — Dafny model

This project models the logic of the staff application form of the
MinigamesHD Minecraft community site (`app/apply/page.tsx`): the table of
roles with their minimum ages, the form schema with its two cross-field
refinements, the completion percentage shown above the form, the
experience-tag checkboxes, and the submit handler that marks the card
`screenshot-safe`, captures it as an image and always removes the mark
again.

Modules, one per part of the page:

- `Wrappers` (`wrappers.dfy`): `Option`, standing for an absent key or `undefined`.
- `Seqs` (`seqs.dfy`): `RemoveAll`, the `filter((x) => x !== t)` used by
  both the tag toggle and the class-list removal, with its order and
  multiplicity lemmas.
- `Roles` (`roles.dfy`): the `ROLES` table, `find` over it and the enum values.
- `Schema` (`schema.dfy`): the typed application record, one issue list per
  base rule, the age and co-owner refinements, `Validate`, and the
  reference predicate `Accepted` it is proved equivalent to.
- `Progress` (`progress.dfy`): the watched form values, JavaScript
  truthiness, the eight required keys, and `Math.round` as integer
  half-up rounding.
- `Experience` (`experience.dfy`): check, uncheck, the checkbox state and
  whether the details box shows.
- `Export` (`export.dfy`): a `Card` class whose `classes` field is the
  class list the handler changes in place, kept free of duplicate tokens
  as a DOM class list is (`Card.Valid`), and `OnSubmit` as a method that
  returns the events it causes.

Validation is modelled as the base-rule issues in the schema's key order
followed by the refinement issues. An unknown role makes both refinements
add nothing (`find` returns `undefined` and the role is not `co-owner`),
so such a record gets exactly its base-rule issues either way.

Where the prose description of the form and the code differ, the model
follows the code:

- The co-owner name rule files a single issue under `firstName` even when
  only the last name is missing; it never files one under `lastName`.
- Experience tags are any strings as far as the schema is concerned. Only
  the checkboxes restrict them to the five options (`ClickKeepsChoice`).
- Progress counts *truthy* values, not non-empty ones. An age of `0`
  counts as unfilled. A role or question that breaks its rule but is
  non-empty counts as filled (`CompleteNotAccepted`).

## Model

| member | source | states |
|---|---|---|
| Roles.Values | app/apply/page.tsx:62 | the enum's options are the table's values, position by position |
| Roles.Find | app/apply/page.tsx:77 | absent exactly when no entry has the value; otherwise an entry with that value with no earlier entry carrying it |
| Roles.FindFirst | app/apply/page.tsx:77 | the first entry carrying a value is what the lookup returns |
| Roles.ValuesDistinct | app/apply/page.tsx:36-43 | no role value appears twice in the table |
| Roles.MinAgeAt | app/apply/page.tsx:36-43 | each entry's value looks up its own minimum age |
| Roles.MinAge | app/apply/page.tsx:77-79 | a minimum age exists exactly for the enum's values and lies between 13 and 18 |
| Roles.KnownRoles | app/apply/page.tsx:36-43 | a value is a known role exactly when it is in the enum, which holds exactly the six values co-owner, admin, developer, mod, supporter, builder |
| Roles.MinAgeTable | app/apply/page.tsx:36-43 | the minimum ages are 18, 15, 15, 13, 13, 13 for the six roles |
| Roles.MinAgeBounds | app/apply/page.tsx:36-43 | every known role asks for an age between 13 and 18 |
| Schema.MinLength | app/apply/page.tsx:59-71 | at most one issue, at the field, exactly when the string is shorter than the minimum |
| Schema.AtLeast | app/apply/page.tsx:61 | at most one issue, at the field, exactly when the number is below the minimum |
| Schema.OneOf | app/apply/page.tsx:62 | at most one issue, at the field, exactly when the value is not an option |
| Schema.AgeRule | app/apply/page.tsx:77-85 | at most one issue, always at `age` |
| Schema.NameRule | app/apply/page.tsx:87-93 | at most one issue, always the names-required issue at `firstName` |
| Schema.BaseIssues | app/apply/page.tsx:58-75 | at most eight base issues, each under one of the eight fields that have a rule |
| Schema.RefineIssues | app/apply/page.tsx:76-94 | at most two refinement issues, each under `age` or `firstName` |
| Schema.Validate | app/apply/page.tsx:57-94 | at most ten issues, none under experienceTags, experienceText or lastName |
| Schema.Accepted | app/apply/page.tsx:57-94 | reference definition of an acceptable record: every field rule, a known role, the role's minimum age, both names for a co-owner |
| Schema.UnderRoleAge | app/apply/page.tsx:77-79 | nobody aged 18 or more is under a role's age, and anyone below 13 is under age for every known role |
| Schema.CountConcat | app/apply/page.tsx:57-94 | issues per field add up over concatenated issue lists |
| Schema.CountValidate | app/apply/page.tsx:57-94 | the issues per field are those of the base rules plus those of the two refinements |
| Schema.CountBase | app/apply/page.tsx:59-74 | each field gets one base issue per rule of its own that fails, and the optional fields none |
| Schema.CountRefine | app/apply/page.tsx:76-94 | the age refinement counts only at `age` and only when under age; the name refinement only at `firstName` and only for a co-owner missing a name |
| Schema.CountRules | app/apply/page.tsx:57-94 | per field: the base issues plus one for being under the role's age at `age` plus one for a missing co-owner name at `firstName` |
| Schema.BaseRules | app/apply/page.tsx:59-71 | mcName and discord (length 2), both motivations (10), honesty (5) and time (1) each get exactly one issue when too short and none otherwise |
| Schema.OptionalFieldsNeverFlagged | app/apply/page.tsx:67-74 | experienceTags, experienceText and lastName never get an issue |
| Schema.RoleMembership | app/apply/page.tsx:62 | the role gets one issue exactly when it is not one of the six values, and none otherwise |
| Schema.AgeVersusRole | app/apply/page.tsx:77-85 | the refinement adds exactly one age issue, naming the role and its minimum, when the known role's minimum exceeds the age, and none otherwise; the age field's total also counts the base rule's age below 10 |
| Schema.CoOwnerNames | app/apply/page.tsx:87-93 | a co-owner missing or leaving empty either name gets exactly one issue at `firstName`; both names present, or any other role, gives none, and `lastName` never gets one |
| Schema.ValidateAccepts | app/apply/page.tsx:57-94 | the issue list is empty exactly when the record meets every field rule, the role is in the table, the age reaches every table minimum for that role, and a co-owner gives both names |
| Schema.AcceptedApplicant | app/apply/page.tsx:36-94 | an accepted record has a known role, reaches its minimum age and is at least 13; an accepted co-owner is at least 18 with both names |
| Schema.BuilderExample | app/apply/page.tsx:36-85 | a 12-year-old builder gets one age issue; at 13 the same record is accepted |
| Progress.FilledKeys | app/apply/page.tsx:135 | the filter keeps exactly the truthy keys, in their original order (a subsequence of the key list) and without repeating any when the keys are distinct; it keeps all of them exactly when all are truthy |
| Progress.Filled | app/apply/page.tsx:123-135 | the filled count is exactly the number of required keys with a truthy value, at most eight |
| Progress.Truthy | app/apply/page.tsx:135 | `!!values[k]`: a string is truthy when non-empty, a number when non-zero, an array whenever present; an absent key is falsy |
| Progress.TruthyRequired | app/apply/page.tsx:123-135 | the set of required keys whose value is truthy |
| Progress.RoundHalfUp | app/apply/page.tsx:137 | the result is the nearest integer to the quotient, halves rounded up |
| Progress.PercentOf | app/apply/page.tsx:137 | the percentage is filled/8*100 rounded to nearest, halves up, and at most 100 |
| Progress.Percent | app/apply/page.tsx:122-137 | the shown percentage is at most 100 and is the number of truthy required keys times 100/8, rounded to nearest with halves up |
| Progress.FiveOfEight | app/apply/page.tsx:122-137 | form values with exactly five truthy required keys show 63 |
| Progress.PercentFormula | app/apply/page.tsx:137 | the rounded percentage equals (25 * filled + 1) / 2 |
| Progress.PercentTable | app/apply/page.tsx:137 | 0..8 filled give 0, 13, 25, 38, 50, 63, 75, 88, 100, so 5 filled gives 63 |
| Progress.PercentStrictlyMonotone | app/apply/page.tsx:137 | more filled keys always give a higher percentage |
| Progress.PercentBounds | app/apply/page.tsx:122-137 | the percentage is within 0..100, is 0 exactly when no required key is truthy and 100 exactly when all eight are |
| Progress.EmptyFilter | app/apply/page.tsx:135 | with no truthy key the filter returns nothing |
| Progress.FilledKeysMonotone | app/apply/page.tsx:135 | making keys truthy never shrinks the filter's result |
| Progress.PercentMonotone | app/apply/page.tsx:122-137 | filling keys without emptying any never lowers the percentage |
| Progress.PercentOnlyTruthiness | app/apply/page.tsx:134-135 | values that agree on the truthiness of the eight keys give the same percentage |
| Progress.PercentIgnoresOptional | app/apply/page.tsx:123-132 | changing names, experience tags or experience text never changes the percentage |
| Progress.AllRequiredFilled | app/apply/page.tsx:123-132 | the eight named keys being truthy makes every required key truthy |
| Progress.InitialIsZero | app/apply/page.tsx:113-137 | the values at mount (only `experienceTags: []` set) give 0 |
| Progress.AcceptedIsComplete | app/apply/page.tsx:122-137 | an accepted record's values give 100 |
| Progress.AcceptedFillsRequired | app/apply/page.tsx:122-137 | a record meeting every rule has all eight keys truthy, so 100 |
| Progress.CompleteNotAccepted | app/apply/page.tsx:122-137 | some record shown at 100 is still refused by the schema |
| Experience.Check | app/apply/page.tsx:287 | the new list is the old one (absent read as empty) followed by the option |
| Experience.Uncheck | app/apply/page.tsx:289-291 | an absent list stays absent; otherwise the option is gone, every other element stays, and nothing new appears |
| Experience.OnCheckedChange | app/apply/page.tsx:285-292 | after the change the box shows the requested state, and after checking the details box shows |
| Experience.IsChecked | app/apply/page.tsx:276 | a checkbox is checked exactly when the list is present and contains its option |
| Experience.ShowsDetails | app/apply/page.tsx:303 | the details box shows exactly when the list is present and non-empty |
| Experience.Click | app/apply/page.tsx:283-292 | a click flips the state of the box it lands on |
| Experience.CheckEffect | app/apply/page.tsx:276-287 | after checking, the box is checked, the other boxes keep their state, earlier tags keep their positions, and the details box shows |
| Experience.UncheckEffect | app/apply/page.tsx:276-303 | after unchecking, the box is unchecked, other boxes keep their state, the rest keeps its order and multiplicity, and the details box shows exactly when another tag remains |
| Experience.UncheckAbsent | app/apply/page.tsx:290 | unchecking with no list leaves no list and no details box |
| Experience.UncheckUndoesCheck | app/apply/page.tsx:285-292 | check then uncheck is uncheck; for a tag not present it restores the old list |
| Experience.ClickTwice | app/apply/page.tsx:276-292 | two clicks on an unchecked box restore the list |
| Experience.ClickKeepsChoice | app/apply/page.tsx:275-292 | a click keeps the list free of duplicates and within the five options |
| Seqs.RemoveAll | app/apply/page.tsx:290 | the result drops every copy of the value, keeps every other element, adds nothing and is no longer |
| Seqs.RemoveAllConcat | app/apply/page.tsx:290 | filtering distributes over concatenation |
| Seqs.RemoveAllIsSubsequence | app/apply/page.tsx:290 | filtering keeps the relative order of what it keeps |
| Seqs.RemoveAllCounts | app/apply/page.tsx:290 | filtering removes every copy of the value and keeps the count of every other element |
| Seqs.RemoveAllKeepsDistinct | app/apply/page.tsx:290 | filtering a duplicate-free list leaves it duplicate-free |
| Seqs.DistinctCardinality | app/apply/page.tsx:135 | a duplicate-free list has as many elements as distinct values, so the filtered key list's length is the number of truthy keys |
| Export.AddToken | app/apply/page.tsx:156 | the token is present afterwards, the old tokens keep their positions, it is appended only when it was absent, and no token appears twice |
| Export.RemoveToken | app/apply/page.tsx:176 | the token is absent afterwards and a duplicate-free list stays duplicate-free |
| Export.Trace | app/apply/page.tsx:156-177 | a run has five events on success and four on failure, beginning with adding the mark and ending with removing it |
| Export.Card.AddClass | app/apply/page.tsx:156 | the card's classes become the old ones with the token added, and stay free of duplicates |
| Export.Card.RemoveClass | app/apply/page.tsx:176 | the card's classes become the old ones with the token removed, and stay free of duplicates |
| Export.OnSubmit | app/apply/page.tsx:153-178 | with no card, no events and nothing changes; otherwise the events are the handler's trace for the outcome, the classes end as the old ones without `screenshot-safe`, and they stay free of duplicates |
| Export.RemoveAfterAdd | app/apply/page.tsx:156-176 | adding then removing a token is the same as removing it |
| Export.CaptureSeesMark | app/apply/page.tsx:156-163 | the capture sees `screenshot-safe` among the card's classes |
| Export.MarkRemovedOnce | app/apply/page.tsx:153-178 | on both outcomes the mark is added once, first, and removed once, last |
| Export.OutcomeEvents | app/apply/page.tsx:158-175 | the download of `minigameshd-bewerbung.png` and the success toast happen exactly on success, the error toast exactly on failure |
| Export.OtherClassesUnchanged | app/apply/page.tsx:156-176 | afterwards the mark is gone and every other class keeps its order and count; a duplicate-free list stays so; a card not marked before ends with exactly its old classes |

## Left out

- Rendering (JSX and the `Field` helper): presentational only. The checkbox state and the details box are kept as predicates (`IsChecked`, `ShowsDetails`).
- React and react-hook-form reactivity: the model computes the percentage from the current values. When the page recomputes it is decided by the memo's dependency list `[watch]`, which is React behaviour.
- Scroll to the first error: it queries the DOM and depends on the key order of react-hook-form's `errors` object.
- zod internals: message texts are kept abstract (`Message`). Whether the refinement runs after a failed type check is library behaviour; the model validates a record whose fields already have their declared types.
- Age parsing: `valueAsNumber`, `NaN` and non-integer ages are floating-point concerns. Age is an `int`, and truthiness of `NaN` is not modelled.
- String length: zod measures UTF-16 code units. The model measures `seq<char>` length, which differs for characters outside the Basic Multilingual Plane.
- `onCheckedChange` may receive the state `"indeterminate"`, which is truthy. The model takes a `bool`.
- `html2canvas`, `toDataURL`, the anchor click and the `sonner` toasts are calls into other code. The model passes the outcome of the capture as a parameter and records the calls as events. Scale, CORS and background options are not modelled.
- Export.OnSubmit: one call runs add, capture and remove as a single uninterrupted step. In the page the capture is awaited, and the submit button stays enabled while it is pending. A second submit can therefore start during the first capture. The first run's `finally` then removes `screenshot-safe` while the second capture may still be running. The model does not capture this interleaving of two runs.
- A ref that is cleared while the capture is awaited is not modelled: the `finally` block reads `cardRef.current` again, and the model assumes it is still the same card.
- `app/layout.tsx`, `app/status/page.tsx` and `components/ui/shadcn-io/announcement/index.tsx` hold page chrome and composition of components. None of them has logic of its own to model.
