# City portal client logic in Dafny

This project models the client-side logic of a municipal service-request portal
(a React application). Residents submit requests for roads, lighting, landscaping
and so on, and follow them in a personal list. The public page lists every request.
The request lifecycle, the categories and the access rules all live in a backend
that the client calls over HTTP. That backend is not part of this model. What the
client decides for itself is modelled, and the properties it promises are proved:

- **My requests** (`MyRequestsPage`). This covers the status/category filter with its
  `all` sentinel, the optimistic removal of a deleted request, the delete dialog
  with its confirm guard, the delete-button rule and the filter reset.
  `Filtered` is the pure two-step filter. The lemmas beside it prove that it is a
  single conjunctive, order-independent filter. It shows exactly the matching
  requests, with their multiplicity, as a subsequence of the loaded list.
  `MyRequestsState` is a class whose fields are the component's state and whose
  methods are the handlers and effects. Each method states the whole new state.
- **Public list** (`MainPage`). This covers the resolved-requests counter, the
  category badge with its fallback, and the photo predicate. `Load` gives the page
  state after its single fetch.
- **Header** (`HeaderComponent`). This covers the HTML `pattern` constraints on
  the login and full-name fields, and the registration guards (consent first, then
  password equality). It also covers how a response becomes a signed-in user or an
  error message. `HeaderState` is the `isLoading` state machine. The flag is up
  exactly while a handler waits for its response (`Valid`). `login` is called only
  for an ok response with a well-formed body.

Shared pieces: `Fetch.Reply` abstracts a response as a rejected fetch or
`(ok, parsed body)`, and `SeqFilter` is `Array.prototype.filter` with its lemmas.

Points where the code is reproduced as written:
- The category filter compares `request.category.name` with the selected value,
  and the selectable values are the category array's indices (`"0"`, `"1"`, …).
  The page model takes the selected value as an opaque string. The index options
  and a name-valued alternative are modelled separately, under Findings.
- The delete button appears only for the literal status `Новая`, while the
  status map and the status filter use the key `new`. `CanOfferDelete` proves
  that no status key is ever offered deletion.
- The confirm button tests `deleteRequestId && …`. A dialog opened for id 0
  therefore stays open and deletes nothing (`ConfirmTarget`, `ZeroIdScenario`).
- `fetchMyRequests` returns before its `try` when the user id is falsy, so loading
  never ends in that case (`ReceiveMyRequests`).
- `fetchCategoryMap` stores any parsed body of the expected shape, whatever the response status.

## Model

| member | source | states |
|---|---|---|
| `SeqFilter.Filter` | src/pages/MyRequestsPage.tsx:88 | the filtered list is no longer than the input and every element of it satisfies the predicate |
| `SeqFilter.FilterMultiplicity` | src/pages/MyRequestsPage.tsx:108 | each kept element occurs as often as in the input, each dropped one never |
| `SeqFilter.FilterMembership` | src/pages/MyRequestsPage.tsx:88 | an element is in the result iff it is in the input and satisfies the predicate |
| `SeqFilter.FilterIsSubsequence` | src/pages/MyRequestsPage.tsx:92 | the result is a subsequence of the input, in original order |
| `SeqFilter.FilterCommutes` | src/pages/MyRequestsPage.tsx:87-93 | two filters give the same list in either order |
| `SeqFilter.FilterFuse` | src/pages/MyRequestsPage.tsx:87-93 | filtering by one predicate and then another equals filtering by their conjunction |
| `SeqFilter.FilterAppend` | src/pages/MainPage.tsx:44 | filtering a concatenation is the concatenation of the filtered parts |
| `MyRequestsPage.Filtered` | src/pages/MyRequestsPage.tsx:84-96 | the two-step filter equals one filter by "status matches or is all, and category name matches or is all" |
| `MyRequestsPage.FilteredMembership` | src/pages/MyRequestsPage.tsx:87-93 | a request is shown iff it is loaded and passes both filters (both directions) |
| `MyRequestsPage.FilteredMultiplicity` | src/pages/MyRequestsPage.tsx:85-95 | a passing request is shown exactly as often as it is loaded, and a failing one never |
| `MyRequestsPage.FilteredIsSubsequence` | src/pages/MyRequestsPage.tsx:85-95 | the shown list is a subsequence of the loaded list and no longer than it |
| `MyRequestsPage.FilteredSatisfiesFilters` | src/pages/MyRequestsPage.tsx:87-93 | every shown request has the selected status and the selected category name, for each filter that is not all |
| `MyRequestsPage.FilteredOrderIndependent` | src/pages/MyRequestsPage.tsx:85-95 | filtering by category first and by status second gives the same list |
| `MyRequestsPage.FilteredAllIsIdentity` | src/pages/MyRequestsPage.tsx:85-95 | with both filters at all, the shown list is exactly the loaded list |
| `MyRequestsPage.WithoutId` | src/pages/MyRequestsPage.tsx:108 | the list after a delete is a subsequence of the list before, and no remaining request has the deleted id |
| `MyRequestsPage.WithoutIdRemovesExactly` | src/pages/MyRequestsPage.tsx:108 | a delete removes exactly the requests with that id; the others keep their order and multiplicity |
| `MyRequestsPage.WithoutAbsentId` | src/pages/MyRequestsPage.tsx:108 | deleting an id that no loaded request has leaves the list unchanged |
| `MyRequestsPage.CanOfferDelete` | src/pages/MyRequestsPage.tsx:233 | deletion is offered exactly for the literal status Новая, so never for any status-map key such as new |
| `MyRequestsPage.ConfirmTarget` | src/pages/MyRequestsPage.tsx:269 | the confirm button fires a delete iff the held id is present and non-zero, and then for that id |
| `MyRequestsPage.IndexString` | src/pages/MyRequestsPage.tsx:190 | the string form of an array index is a non-empty run of decimal digits, without leading zeros, that denotes that index |
| `MyRequestsPage.CategoryOptionValues` | src/pages/MyRequestsPage.tsx:189-194 | the category options are all followed by, for each category, the decimal string of its index |
| `MyRequestsPage.CategoryOptionHidesNamedCategories` | src/pages/MyRequestsPage.tsx:91-93 | choosing any category option hides each request whose category name is not a decimal numeral, whatever the status filter |
| `MyRequestsPage.CategoryOptionCounterexample` | src/pages/MyRequestsPage.tsx:190-192 | with the single category roads and one request in it, choosing that category shows nothing |
| `MyRequestsPage.CategoryOptionValuesByName` | src/pages/MyRequestsPage.tsx:190-192 | the name-valued options are all followed by each category's name, in order |
| `MyRequestsPage.CategoryOptionByNameShowsCategory` | src/pages/MyRequestsPage.tsx:91-93 | with name-valued options, choosing a category shows exactly the loaded requests in it |
| `MyRequestsPage.MyRequestsState.constructor` | src/pages/MyRequestsPage.tsx:41-47 | initially both lists are empty, loading is on, no delete is pending, both filters are all and the filter holds |
| `MyRequestsPage.MyRequestsState.ReceiveMyRequests` | src/pages/MyRequestsPage.tsx:58-78 | with no truthy user id nothing changes and loading stays on; otherwise loading ends, and only an ok well-formed response replaces both lists |
| `MyRequestsPage.MyRequestsState.ReceiveCategoryMap` | src/pages/MyRequestsPage.tsx:51-56 | any parsed body becomes the category list, whatever the status; otherwise the list is unchanged |
| `MyRequestsPage.MyRequestsState.ApplyFilters` | src/pages/MyRequestsPage.tsx:84-96 | after the effect, the shown list is the filter of the current list and filters, as a subsequence of the list |
| `MyRequestsPage.MyRequestsState.SetStatusFilter` | src/pages/MyRequestsPage.tsx:162-165 | the status select stores the chosen value |
| `MyRequestsPage.MyRequestsState.SetCategoryFilter` | src/pages/MyRequestsPage.tsx:181-184 | the category select stores the chosen value |
| `MyRequestsPage.MyRequestsState.ClearFilters` | src/pages/MyRequestsPage.tsx:133-136 | both filters become all, and the filter of the current list is then the whole list |
| `MyRequestsPage.MyRequestsState.DialogOpen` | src/pages/MyRequestsPage.tsx:252 | the dialog is open whenever the confirm button would fire a delete and also for a held id 0, and closed when no id is held |
| `MyRequestsPage.MyRequestsState.OpenDeleteDialog` | src/pages/MyRequestsPage.tsx:125-127 | the dialog holds the chosen id and is open |
| `MyRequestsPage.MyRequestsState.CloseDeleteDialog` | src/pages/MyRequestsPage.tsx:129-131 | the held id is cleared and the dialog is closed |
| `MyRequestsPage.MyRequestsState.HandleDeleteRequest` | src/pages/MyRequestsPage.tsx:98-123 | an ok response removes that id from the list and clears the held id; any failure leaves both unchanged |
| `MyRequestsPage.MyRequestsState.ConfirmDelete` | src/pages/MyRequestsPage.tsx:267-272 | a delete fires iff the held id is present and non-zero; only a fired, ok delete changes the list and the held id |
| `MainPage.CompletedCount` | src/pages/MainPage.tsx:44 | the counter never exceeds the number of fetched requests |
| `MainPage.CompletedCountIsPositionCount` | src/pages/MainPage.tsx:44 | the counter equals the number of positions whose request has status completed |
| `MainPage.CategoryLabel` | src/pages/MainPage.tsx:75 | a known key (roads, landscaping, lighting, other) shows its Russian name; any other category shows the raw string |
| `MainPage.CategoryLabelBlankOnlyForBlank` | src/pages/MainPage.tsx:23-28 | a badge is blank iff the category is blank, since every mapped name is non-empty |
| `MainPage.PhotoShown` | src/pages/MainPage.tsx:91 | the photo is shown iff the URL is present and non-empty |
| `MainPage.Load` | src/pages/MainPage.tsx:36-56 | loading ends; the list and the counter come from the same ok data, with the counter equal to its number of completed requests; on any failure the list stays empty and the counter 0 |
| `HeaderComponent.MatchesWholeIff` | src/components/Header.tsx:225 | an anchored `[class]+` pattern matches exactly the non-empty strings made of class characters |
| `HeaderComponent.LoginAccepted` | src/components/Header.tsx:225 | a login is accepted iff it is a non-empty string of the letters A-Z and a-z |
| `HeaderComponent.FullNameAccepted` | src/components/Header.tsx:215 | a full name is accepted iff it is non-empty and made of Cyrillic letters (with Ё and ё), white space and hyphens |
| `HeaderComponent.PatternsDisjoint` | src/components/Header.tsx:215-225 | no value satisfies both the login and the full-name pattern |
| `HeaderComponent.Get` | src/components/Header.tsx:74 | reading a form field yields a value iff the form has a field of that name, and then that field's value |
| `HeaderComponent.CheckRegister` | src/components/Header.tsx:74-97 | missing consent refuses registration whatever the passwords; with consent, differing password and repeat values refuse it; otherwise the body sent is the form's fields |
| `HeaderComponent.RegisterFormData` | src/components/Header.tsx:207-261 | the submitted registration form has no password-repeat field |
| `HeaderComponent.RegisterFormNeverSends` | src/components/Header.tsx:95 | with the form as written no registration request is ever sent, and a ticked box always ends in the password-mismatch error |
| `HeaderComponent.RegisterFormDataWithRepeat` | src/components/Header.tsx:95 | the corrected form has the same fields plus password-repeat holding the repeat value |
| `HeaderComponent.RegisterFormWithRepeatChecks` | src/components/Header.tsx:74-97 | with the corrected form: ticked box and equal passwords send exactly what was typed, a different repeat is refused, an unticked box is refused first |
| `HeaderComponent.Outcome` | src/components/Header.tsx:44-51 | a user results iff the response is ok and its body parses; otherwise the error is the body's error text when truthy, else the fallback, or the rejection's message |
| `HeaderComponent.FailureIsNeverSilent` | src/components/Header.tsx:59-64 | a failed request never yields a user and always has a non-blank error message |
| `HeaderComponent.HeaderState.constructor` | src/components/Header.tsx:21-23 | the header starts idle, not loading, with the context's user |
| `HeaderComponent.HeaderState.SubmitLogin` | src/components/Header.tsx:25-27 | a login starts iff nothing is loading, and then loading is on while the handler waits; the user is unchanged |
| `HeaderComponent.HeaderState.ResumeLogin` | src/components/Header.tsx:44-67 | loading ends whatever the outcome; the user is replaced only on an ok, well-formed response |
| `HeaderComponent.HeaderState.SubmitRegister` | src/components/Header.tsx:70-97 | blocked while loading; missing consent is refused with loading unchanged; a mismatch is refused with loading back off; otherwise the body is sent and loading is on |
| `HeaderComponent.HeaderState.ResumeRegister` | src/components/Header.tsx:107-130 | loading ends whatever the outcome; the user is replaced only on an ok, well-formed response |

The three page modules follow the three source files. `SeqFilter`, `Fetch` and
`Wrappers` are shared helpers. `HeaderState.Valid` (`isLoading` up exactly while a
handler waits) is kept by every `HeaderState` method. The page models take
`FormData` and the selected category value as inputs. They are therefore the same
for the forms as written and for the corrected forms of the Findings.

## Findings

| source | as written | input that shows it | evidently intended | confidence | as-written member | corrected member |
|---|---|---|---|---|---|---|
| src/components/Header.tsx:95 | the password is compared with `formData.get('password-repeat')`, but the registration form (lines 207-261) has no field of that name, so the right side is always `null` and every consented registration stops with "Пароли не совпадают" before any request | any input with the consent box ticked, e.g. password `secret` | a password-repeat input whose value is compared, so equal passwords send the registration | high (not executed) | `HeaderComponent.RegisterFormNeverSends` | `HeaderComponent.RegisterFormWithRepeatChecks` |
| src/pages/MyRequestsPage.tsx:190-192 | the category options' values are the array indices from `Object.entries`, and the filter (line 92) compares them with `category.name` | categories `[{id: "1", name: "roads"}]`, one request in roads, option `"0"` chosen: the list shows nothing | the option value is the category's name, so choosing a category shows its requests | high (not executed) | `MyRequestsPage.CategoryOptionCounterexample` | `MyRequestsPage.CategoryOptionByNameShowsCategory` |

## Left out

- The backend: request lifecycle, status invariants, categories and authorization. No code shown here implements them.
- Network I/O and JSON: each `fetch` is an abstract `Reply` (rejected, or `ok` with a parsed or unparsable body). A JSON body of an unexpected shape counts as unparsable. Request bodies (login email and password, the delete URL) are not modelled.
- Asynchrony: each handler is split at its `await` into a submit step and a resume step, and effects are explicit steps (`ApplyFilters`). `handleDeleteRequest` uses the `requests` captured when it was created. Interleavings that make that copy stale, and React's batching of state updates, are not modelled.
- The browser's constraint validation: `required`, the `pattern` checks and `type="email"`. The patterns are predicates (`LoginAccepted`, `FullNameAccepted`), but the handlers are not gated on them. Email syntax and the stripping of line breaks from input values are not modelled.
- `MyRequestsPage.MyRequestsState.ReceiveCategoryMap`: the source stores any parsed body, even a non-array error object from a non-ok response. The model treats a body of the wrong shape as unparsable and leaves `categoryMap` unchanged.
- `MainPage.CategoryLabel`: treats the label map as holding only its four own keys. A key such as `toString`, which JavaScript would resolve to an inherited member, is not modelled.
- The user context (`src/context/UserContext.tsx`): `login` is modelled as replacing `HeaderState.user`. Local-storage persistence and `logout` are not part of this model.
- `src/pages/AdminPage.tsx`, `src/components/CreateRequestForm.tsx` and `src/App.tsx` are not part of this model. They hold only request payloads, re-fetches, markup and routing.
- Toasts, rendering, dialogs, date formatting, `console.log` and page reloads are presentation only.
