# Image upload form — Dafny model

This project models the state logic of the `ImageUpload` component of the
PinkCheck AI front end. The component lets a user choose image files for
three categories: Mammogram, Ultrasound and Biopsy. The user ticks the
categories to submit and presses "Analyze". The component then posts one
multipart body to an inference service and tells the user how it went.

The component's state is an immutable record (`UploadForm.State`) with three parts:

- the per-category file lists, a fixed map with exactly the three category keys (`UploadForm.FileMap`);
- the ordered list of ticked categories;
- the `loading` flag.

Each React handler becomes a pure function from one state to the next:

- `SetFiles` models `handleFileChange`.
- `ToggleCategory` models `handleCheckboxChange`.
- `BeginSubmit` and `Settle` model `handleSubmit`, before and after the awaited request.
- `Display` holds the rendering helpers: the drop-zone label, the card background, and the button's disabled flag, label and colour.

The request itself is not modelled. Its outcome is a parameter, `Submission.Response`: the fetch threw, or a response arrived with some `ok` flag and a body that does or does not parse as JSON. `Session` puts the handlers and the response arrival together as events in any interleaving. It proves that invariants hold on every reachable state.

Modules, one per concern:

- `Options`: the `Option` type. `None` is the null case that `if (e.target.files)` tests for.
- `Categories`: the category type, its key and checkbox value (`"Mammogram"`), and its lower-cased form (`"mammogram"`).
- `Decimal`: decimal rendering of the per-category index, and reading it back.
- `Lists`: `filter`, `join`, the reading direction of `join(", ")`, and the order and duplicate predicates.
- `UploadForm`: the state, its initial value, and the two editing handlers.
- `Payload`: part names, the body assembly (a recursive definition and a loop method), and its placement, membership and distinct-name properties.
- `Submission`: the guard, the loading lifecycle and the notices.
- `Display`: what the form shows.
- `Session`: event sequences and the invariants every reachable state keeps.

Facts about the component's code that the model follows:

- Part names are singular, lower-cased and indexed per category (`mammogram[0]`, `mammogram[1]`, `biopsy[0]`), as line 40 builds them.
- The three categories are `Mammogram`, `Ultrasound` and `Biopsy`, as lines 5-9 set them.
- On a failed request the component raises an `alert` (line 59).
- The component posts to a fixed external address (line 45). The model leaves the address out.

## Model

| member | source | states |
|---|---|---|
| UploadForm.Init | src/app/upload-image/components/ImageUpload/index.tsx:5-11 | On mount every category's file list is empty, nothing is selected and the form is not loading. This state satisfies the selection invariant. |
| UploadForm.SetFiles | src/app/upload-image/components/ImageUpload/index.tsx:13-19 | A null file list leaves the state identical. Otherwise the chosen category's list becomes exactly the new list, with no merging. Every other category's list, the selection and `loading` are unchanged, and the selection invariant is preserved. |
| UploadForm.SetFilesLastWins | src/app/upload-image/components/ImageUpload/index.tsx:13-19 | Choosing files twice for one category equals choosing only the second list. |
| UploadForm.SetFilesCommute | src/app/upload-image/components/ImageUpload/index.tsx:13-19 | Choosing files for two different categories gives the same state in either order. |
| UploadForm.Toggle | src/app/upload-image/components/ImageUpload/index.tsx:21-26 | The toggled category is in the result exactly when it was not in the selection. Other categories keep their membership. An absent category is appended at the end. A present one is removed in every occurrence, and the rest keep their relative order (subsequence, and multiset minus that category). A duplicate-free selection stays duplicate-free. |
| UploadForm.ToggleCategory | src/app/upload-image/components/ImageUpload/index.tsx:21-26 | A checkbox change alters only the selection: membership of the toggled category flips and every other category's membership is kept. Files and `loading` are untouched, and the selection invariant is preserved. |
| UploadForm.ToggleRemovesOne | src/app/upload-image/components/ImageUpload/index.tsx:24 | In a duplicate-free selection, unticking the category at position k yields the list with exactly position k removed, one shorter. |
| UploadForm.ToggleTwiceSameMembers | src/app/upload-image/components/ImageUpload/index.tsx:21-26 | Toggling the same category twice restores the set of selected categories. |
| UploadForm.ToggleTwiceAbsent | src/app/upload-image/components/ImageUpload/index.tsx:21-26 | Toggling an unselected category twice restores the selection list exactly. |
| UploadForm.ToggleTwicePresent | src/app/upload-image/components/ImageUpload/index.tsx:21-26 | Toggling a selected category twice moves it from its position to the end of the list. |
| UploadForm.ToggleTwiceRestores | src/app/upload-image/components/ImageUpload/index.tsx:21-26 | For a duplicate-free selection, a double toggle restores the exact list if and only if the category was unselected or already last. |
| UploadForm.ToggleTwiceReorders | src/app/upload-image/components/ImageUpload/index.tsx:21-26 | Concrete instance: [Mammogram, Ultrasound] toggled twice on Mammogram becomes [Ultrasound, Mammogram]. |
| Lists.WithoutKeepsOrder | src/app/upload-image/components/ImageUpload/index.tsx:24 | `filter(type => type !== value)` keeps exactly the elements other than the value, in their original relative order. |
| Lists.WithoutNoDuplicates | src/app/upload-image/components/ImageUpload/index.tsx:24 | Filtering a duplicate-free list keeps it duplicate-free. |
| Categories.FromNameRoundTrip | src/app/upload-image/components/ImageUpload/index.tsx:105-191 | A checkbox's value reads back as its own category, so the three values are distinct known keys. |
| Categories.LowerNameValues | src/app/upload-image/components/ImageUpload/index.tsx:40 | `type.toLowerCase()` of the three keys is "mammogram", "ultrasound" and "biopsy", all singular. |
| Decimal.ToDecimal | src/app/upload-image/components/ImageUpload/index.tsx:40 | The interpolated index is non-empty and all digits, and it has no leading zero unless it is 0. |
| Decimal.ParseToDecimal | src/app/upload-image/components/ImageUpload/index.tsx:40 | Reading the interpolated index back as a decimal number gives the index. |
| Payload.ParseKeyRoundTrip | src/app/upload-image/components/ImageUpload/index.tsx:40 | A part name `lower(type)[i]` reads back as exactly its category and index. |
| Payload.PartKeyInjective | src/app/upload-image/components/ImageUpload/index.tsx:40 | Two part names are equal only for the same category and the same index. |
| Payload.PayloadLength | src/app/upload-image/components/ImageUpload/index.tsx:36-42 | The body has as many parts as the selected categories have files, summed over the selection. |
| Payload.PayloadAt | src/app/upload-image/components/ImageUpload/index.tsx:38-41 | The i-th file of the k-th selected category sits right after all files of the earlier selected categories. Its key is `lower(type)[i]` and it carries exactly that file. So the order is selection order first, then file order. |
| Payload.PayloadMembers | src/app/upload-image/components/ImageUpload/index.tsx:38-41 | Every part's name reads back as a selected category and an index within that category's files, and the part carries the file at that index. |
| Payload.PayloadKeysDistinct | src/app/upload-image/components/ImageUpload/index.tsx:38-41 | When the selection has no duplicates, no two parts share a name. |
| Payload.AssemblePayload | src/app/upload-image/components/ImageUpload/index.tsx:36-42 | The nested `forEach` loops that append one part per file build exactly the body described by the recursive definition. |
| Submission.BeginSubmit | src/app/upload-image/components/ImageUpload/index.tsx:28-42 | An empty selection is rejected with the "select at least one" notice, and only an empty one is. Otherwise `loading` becomes true with files and selection unchanged. The body then has one part per selected file, every part carries its file, and for a valid state no name repeats. |
| Submission.Settle | src/app/upload-image/components/ImageUpload/index.tsx:44-62 | Whatever the outcome, `loading` ends false with files and selection unchanged. The success notice appears if and only if the response was ok with a JSON body. Otherwise the failure notice appears. |
| Submission.Submit | src/app/upload-image/components/ImageUpload/index.tsx:28-62 | With an empty selection the state is unchanged, no request is made and the warning is raised. Otherwise the built body is sent and the state returns with `loading` false. The notice reports success exactly for an ok, parsable response. A form that was not loading is not loading afterwards. |
| Submission.NotOkFails | src/app/upload-image/components/ImageUpload/index.tsx:50-52 | A non-ok response takes the failure path even when its body is JSON, and clears `loading`. |
| Display.RenderSelectedFiles | src/app/upload-image/components/ImageUpload/index.tsx:65-70 | An empty list shows "Drag your file(s) or browse". Otherwise, for every k, the k-th file's name appears at the k-th offset of the label, in file order, whatever the names contain. |
| Display.RenderLayout | src/app/upload-image/components/ImageUpload/index.tsx:69 | The label is laid out in full for any names, commas included: each name at its offset, ", " after every name but the last, and the label ends with the last name. |
| Display.RenderAfterClear | src/app/upload-image/components/ImageUpload/index.tsx:13-19 | An empty file list for a category brings back that category's placeholder. |
| Lists.JoinAt | src/app/upload-image/components/ImageUpload/index.tsx:69 | `join(sep)` places the k-th piece after all earlier pieces and their separators, puts one separator after every piece but the last, and ends with the last piece. This holds for all pieces. |
| Display.RenderShowsNames | src/app/upload-image/components/ImageUpload/index.tsx:65-70 | When no name contains a comma, cutting the label at ", " gives back exactly the chosen file names, in order. |
| Display.RenderLength | src/app/upload-image/components/ImageUpload/index.tsx:69 | The label's length is the names' total length plus two characters per separator. |
| Display.RenderAfterSetFiles | src/app/upload-image/components/ImageUpload/index.tsx:65-70 | Choosing files for one category leaves every other category's label unchanged. A null file list changes no label. |
| Display.BackgroundColor | src/app/upload-image/components/ImageUpload/index.tsx:72-74 | A card is "bg-pink-100" exactly when its category is selected and "bg-gray-200" exactly when it is not. |
| Display.ToggleFlipsBackground | src/app/upload-image/components/ImageUpload/index.tsx:72-74 | A checkbox change changes the background of its own card and of no other card. |
| Display.ButtonDisabled | src/app/upload-image/components/ImageUpload/index.tsx:201 | The button is disabled exactly when nothing is selected or a request is loading. |
| Display.ButtonLabel | src/app/upload-image/components/ImageUpload/index.tsx:204 | The label reads "Analyzing..." exactly while loading, and "Analyze" when not loading. |
| Display.ButtonColor | src/app/upload-image/components/ImageUpload/index.tsx:198 | The button is grey ("bg-gray-400") exactly when its label reads "Analyzing...", and pink ("bg-[#FF69B4]") exactly when not loading. |
| Display.EnabledButtonSends | src/app/upload-image/components/ImageUpload/index.tsx:201 | A press on an enabled button always passes the guard and starts a request. |
| Display.ButtonWhileSending | src/app/upload-image/components/ImageUpload/index.tsx:196-205 | While a request is under way the button is disabled and reads "Analyzing...". After it settles the button is enabled again and reads "Analyze". |
| Display.InitialDisplay | src/app/upload-image/components/ImageUpload/index.tsx:65-74 | On mount every drop zone shows the placeholder, every card is grey and the button is disabled. |
| Session.Step | src/app/upload-image/components/ImageUpload/index.tsx:13-62 | One event preserves the session invariant: a duplicate-free selection, `loading` set exactly while a request is pending, and no sent body with a repeated name. An event sends at most one body, and only when none is pending. A response arrival clears `loading`. |
| Session.RunKeepsInv | src/app/upload-image/components/ImageUpload/index.tsx:13-62 | Every sequence of events keeps the session invariant. |
| Session.PressWhilePendingIgnored | src/app/upload-image/components/ImageUpload/index.tsx:201 | While a request is pending a click changes nothing, so requests never overlap. |
| Session.StartInv | src/app/upload-image/components/ImageUpload/index.tsx:5-11 | The session on mount satisfies the invariant. |

## Left out

- The JSX markup, Tailwind classes other than the state-dependent ones above, and the icons. They are static presentation.
- `src/app/api/predict/route.ts`, the server-side proxy. It is network plumbing around an opaque upstream service, and this component does not call it.
- `src/app/utils/predict.ts`. It is a `fetch` plus `json()` wrapper with no logic of its own, and this component does not call it.
- `src/app/components/Hero/index.tsx` and `src/app/upload-image/page.tsx`. They are static pages.
- `fetch`, the endpoint address, `response.json()`'s value, `console.log`/`console.error` and the prediction result. The outcome of the request is the `Response` parameter. The result is only logged by the component, so nothing in the state depends on it.
- `alert` is modelled as the notice the handler raises (`Submission.Alert`), not as a blocking dialog.
- File contents and sizes. "Max 10 MB" is advisory text and is not enforced. A file is its name.
- Submission.Submit: treats the request as uninterrupted. Interleavings of user events with a pending request are modelled by `Session` instead, through the separate `Press` and `Arrive` events.
- The string-keyed file map is modelled with exactly the three category keys. `handleFileChange` is only ever called with those keys (lines 102, 139 and 176), so a lookup of an unknown key (`files[type]` undefined) cannot occur and is not modelled. The selection's values come from the checkbox `value` attributes (lines 108, 145 and 182), which are the same three keys, so "every selected value is a known key" holds by the type of the selection rather than by a proof.
- `toLowerCase` is modelled on ASCII letters only. The three keys are ASCII.
- A form reset and a result display. This component has neither.

## Observations

The model does not show the component's code to be wrong. Two behaviours are worth knowing:

- A category can be selected with no files. It then contributes no parts, and the body can be empty.
- Toggling a selected category off and on moves it to the end of the selection unless it was already last. When a category selected after it has files, the order of the parts then changes.
