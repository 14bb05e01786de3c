# Portfolio view-state model

A Dafny model of the view-state logic in a single-page portfolio site built with React. Everything else in the site is static markup. The model covers four pieces of logic:

- **Gallery lightbox** (`Gallery`). A state made of the selected image (or none) and the current index, over the fixed image list. It changes on clicks: a thumbnail opens the lightbox; close, previous and next act inside it. Previous and next wrap around using JavaScript's remainder.
- **Category filters** (`CategoryFilter`, `Skills`, `Projects`). Each section keeps one active tag, set by clicking one of its filter buttons. The tag `"all"` shows the fixed list unchanged. Any other tag shows the items of that category as a stable filter, in their original order. The two sections share one generic definition. The constant skill and project lists are modelled as data.
- **Active-section tracker** (`Navigation`). On each scroll event, `isScrolled` becomes `scrollY > 50`. The active section becomes the first of `hero, about, skills, projects, contact` whose element exists and whose box straddles the line 100 units below the viewport top. If none matches, the previous active section is kept.
- **Contact form and entrance flag** (`Contact`, `Visibility`). The form is a record of three fields. A change event overwrites the one field it names. Submit only logs the data. Each content section (About, Skills, Projects, Gallery, Contact) has an `isVisible` flag that an intersection callback can set, and nothing ever clears it.

Browser inputs are plain parameters:
- Element rectangles and the scroll offset arrive as a `ScrollEvent`. A section with no element in the document is an id missing from its map.
- An observer callback receives a non-empty batch of intersection entries, each given by its `isIntersecting` boolean. Only the first entry of the batch is read, as the source's `([entry])` parameter does.
- Clicks and input changes arrive as datatype values. A filter-button click is the button's position in the tag list.

Each transition is a pure function. The gallery click, filter-button click, scroll handler, form change and observer callback each also have a fold over a sequence of events, with lemmas about that fold.

## Model

| member | source | states |
|---|---|---|
| Gallery.JsRem | src/components/Gallery.tsx:62 | JavaScript `%` truncates toward zero: for a non-negative dividend the result lies in `[0, n)`, for a negative one in `(-n, 0]`; exact values on the ranges the carousel uses |
| Gallery.NextIndex | src/components/Gallery.tsx:61-62 | for `n >= 1` and any `i >= -1` the next index is in `[0, n)`; for `i` in range it is `i + 1`, wrapping from `n - 1` to 0 |
| Gallery.PrevIndex | src/components/Gallery.tsx:67-68 | the dividend `i - 1 + n` is never negative for `i >= 0`, so the result is in `[0, n)`; for `i` in range it is `i - 1`, wrapping from 0 to `n - 1` |
| Gallery.NextImage | src/components/Gallery.tsx:61-65 | from a consistent state, next opens the image at the new index and steps the index forward with wrap-around |
| Gallery.PrevImage | src/components/Gallery.tsx:67-71 | from a consistent state, previous opens the image at the new index and steps the index back with wrap-around |
| Gallery.OpenLightbox | src/components/Gallery.tsx:52-55 | opening sets a selection, and opening the pair `(images[index], index)` that a thumbnail passes yields a consistent state |
| Gallery.CloseLightbox | src/components/Gallery.tsx:57-59 | close clears the selection, leaves the index untouched and keeps the state consistent |
| Gallery.Step | src/components/Gallery.tsx:52-71 | a click preserves consistency; a thumbnail click selects `images[index]` and sets the index to that thumbnail's position; the next and previous buttons act as `NextImage` and `PrevImage`; close clears the selection and keeps the index; a click on a button that is not rendered changes nothing |
| Gallery.ClosedIgnoresArrows | src/components/Gallery.tsx:164-194 | while the lightbox is closed, previous, next and close are not rendered, so they cannot change the state |
| Gallery.RunStaysConsistent | src/components/Gallery.tsx:52-71 | any click sequence from a consistent state ends in a consistent state: index in range and a selected image equal to `images[index]` |
| Gallery.ReachableIsConsistent | src/components/Gallery.tsx:85-92 | every state reachable from the initial one is consistent, because thumbnails open `(image, index)` pairs taken from `images.map` |
| Gallery.PrevAfterNext | src/components/Gallery.tsx:61-71 | previous after next returns to the original open state |
| Gallery.NextAfterPrev | src/components/Gallery.tsx:61-71 | next after previous returns to the original open state |
| Gallery.NextTimesIndex | src/components/Gallery.tsx:61-65 | after `k <= N` presses of next the index is `i + k`, less `N` once it passes the end, and the state stays consistent |
| Gallery.PrevTimesIndex | src/components/Gallery.tsx:67-71 | after `k <= N` presses of previous the index is `i - k`, plus `N` once it passes the start, and the state stays consistent |
| Gallery.NextCycle | src/components/Gallery.tsx:61-65 | `N` presses of next return to the starting open state |
| Gallery.PrevCycle | src/components/Gallery.tsx:67-71 | `N` presses of previous return to the starting open state |
| Gallery.ThreeImageTour | src/components/Gallery.tsx:17-65 | with the three gallery images, opening the first and pressing next gives index 1, then 2, then 0, each showing the matching image |
| CategoryFilter.View | src/components/Projects.tsx:56-58 | tag `"all"` gives the list itself; any other tag gives exactly the items of that category (membership both ways), in their original relative order, as many as the category has |
| CategoryFilter.KeepMembers | src/components/Skills.tsx:32 | an item is kept if and only if it is in the list and has the selected category |
| CategoryFilter.KeepIsSubsequence | src/components/Skills.tsx:32 | the filtered list is an order-preserving subsequence of the source list |
| CategoryFilter.KeepLengthIsCount | src/components/Skills.tsx:32 | the filtered length equals an independent count of the items with that category |
| CategoryFilter.KeepIdempotent | src/components/Projects.tsx:58 | filtering an already-filtered view by the same tag changes nothing |
| CategoryFilter.SubsequenceKeepsDistinct | src/components/Projects.tsx:108-110 | a subsequence of a list with pairwise-distinct keys also has pairwise-distinct keys |
| CategoryFilter.Select | src/components/Skills.tsx:64-68 | a click on a rendered button makes that button's tag active; the active tag is always a button's tag or the previous one |
| CategoryFilter.SelectRunIsLastSelected | src/components/Projects.tsx:91-94 | after any clicks the active tag is that of the last button clicked, per an independent back-to-front definition, or the initial tag if none was clicked |
| CategoryFilter.SelectedStaysListed | src/components/Skills.tsx:64-68 | starting from a listed tag, the active tag always names one of the buttons |
| CategoryFilter.PartitionCount | src/components/Skills.tsx:17-28 | when the tags are distinct and cover every item's category, the view sizes over those tags sum to the list length |
| Skills.FilteredSkills | src/components/Skills.tsx:30-32 | the skills grid is all eight skills for `"all"`; otherwise exactly the skills of that category (membership both ways), as many as the category has |
| Skills.FilteredSkillsInOrder | src/components/Skills.tsx:30-32 | every skills view is an order-preserving subsequence of the declared list |
| Skills.InitialViewIsEverything | src/components/Skills.tsx:13-32 | the initial tag `"all"` shows all eight skills in declared order |
| Skills.DataFilterScenario | src/components/Skills.tsx:22-32 | the `"data"` filter shows Power BI, Data Analysis and Machine Learning, in that order |
| Skills.CategoryCounts | src/components/Skills.tsx:17-32 | the views hold 2 programming, 2 frontend, 3 data and 1 tools skills |
| Skills.UnknownTagIsEmpty | src/components/Skills.tsx:32 | a tag that no filter button offers yields an empty grid |
| Skills.CategoriesPartitionSkills | src/components/Skills.tsx:17-28 | every skill's category is one of the non-`"all"` buttons, and the view sizes over those buttons sum to 8 |
| Skills.ButtonGridNonEmpty | src/components/Skills.tsx:17-32 | every filter button's grid shows at least one skill |
| Skills.ReachableGridNonEmpty | src/components/Skills.tsx:13-68 | after any filter clicks from the initial `"all"`, the active tag is a button's tag and the skills grid is not empty |
| Skills.LevelsArePercentages | src/components/Skills.tsx:17-26 | every proficiency level lies in `[0, 100]`, which makes it a valid percentage width |
| Projects.FilteredProjects | src/components/Projects.tsx:56-58 | the projects grid is all four projects for `"all"`; otherwise exactly the projects of that category (membership both ways), as many as the category has |
| Projects.FilteredProjectsInOrder | src/components/Projects.tsx:56-58 | every projects view is an order-preserving subsequence of the declared list |
| Projects.InitialViewIsEverything | src/components/Projects.tsx:16-57 | the initial filter `"all"` shows projects 1, 2, 3, 4 in order |
| Projects.FilterScenarios | src/components/Projects.tsx:20-58 | `"web"` shows ids 2 then 4, `"ml"` shows id 3 only, and `"data"` shows id 1 only |
| Projects.IdsAreKeys | src/components/Projects.tsx:20-53 | project ids are pairwise distinct in the full list and in every filtered view, so they are sound list keys |
| Projects.CategoriesPartitionProjects | src/components/Projects.tsx:20-55 | every non-`"all"` button matches at least one project, every project's category has a button, and the counts sum to 4 |
| Projects.ReachableGridNonEmpty | src/components/Projects.tsx:16-94 | after any filter clicks from the initial `"all"`, the active filter is a button's tag and the projects grid is not empty |
| Navigation.FindSection | src/components/Navigation.tsx:15-23 | `find` returns the first position whose element exists and straddles the anchor line; it returns none if and only if no position matches |
| Navigation.HandleScroll | src/components/Navigation.tsx:11-25 | `isScrolled` is `scrollY > 50`, whatever its previous value; the first matching section in list order becomes active; with no match the previous section is kept |
| Navigation.MissingNeverMatches | src/components/Navigation.tsx:17-22 | a section with no element in the document never matches |
| Navigation.UniqueMatchWins | src/components/Navigation.tsx:16-24 | when exactly one section matches, it becomes active whatever the previous state |
| Navigation.ActiveStaysListed | src/components/Navigation.tsx:7-24 | if the active section starts in the five-id list, it stays there after any scroll events |
| Navigation.ScrolledReflectsLastEvent | src/components/Navigation.tsx:12 | after any non-empty run of events, `isScrolled` depends only on the last event's offset |
| Navigation.ProjectsNeverActive | src/pages/Index.tsx:19-24 | the home page does not mount the projects section, so with no `"projects"` element in the document that id never becomes active unless it already was |
| Navigation.HomePageRun | src/pages/Index.tsx:12-28 | starting from `"hero"` on the home page, the active section is always one of the five ids and never `"projects"` |
| Contact.HandleInputChange | src/components/Contact.tsx:13-18 | a change sets the named field to the new value and leaves the other two fields unchanged |
| Contact.InitialIsEmpty | src/components/Contact.tsx:5-9 | every field starts as the empty string |
| Contact.ChangeIdempotent | src/components/Contact.tsx:14-17 | applying the same change twice equals applying it once |
| Contact.LastChangeWins | src/components/Contact.tsx:14-17 | two changes to the same field leave only the second value |
| Contact.ChangesCommute | src/components/Contact.tsx:14-17 | changes to two different fields commute |
| Contact.RunFieldIsLastInput | src/components/Contact.tsx:13-18 | after any event sequence, each field holds the value of the last input event for that field, or its starting value if there was none |
| Contact.SubmitsAreInert | src/components/Contact.tsx:20-24 | `HandleSubmit` logs the form's contents and leaves the form as it is, so removing every submit from an event sequence does not change the resulting form |
| Visibility.OnIntersection | src/components/Contact.tsx:28-31 | the callback sets the flag if the batch's first entry intersects, and otherwise leaves it unchanged; it never clears the flag |
| Visibility.StaysVisible | src/components/Contact.tsx:10-31 | once the flag is true, no further intersection callbacks make it false |
| Visibility.VisibleIffIntersected | src/components/Contact.tsx:26-41 | starting hidden, the flag is true exactly when the first entry of some callback's batch was intersecting |
| Visibility.LaterEntriesIgnored | src/components/Contact.tsx:28-31 | a batch whose first entry does not intersect leaves the flag as it was, even when a later entry intersects, e.g. `[false, true]` |

## Left out

- Browser I/O is left out: registering and disconnecting the `IntersectionObserver`, adding and removing the scroll listener, `scrollIntoView` and `getBoundingClientRect`. Rectangles, scroll offsets and intersection entries are inputs.
- The observer threshold of 0.3 is left out. When the browser fires the callback is its own business; the model receives each entry's `isIntersecting`, batched per callback.
- `ScrollProgress.tsx` is left out. It is floating-point presentation, including a division by zero when the content fits the viewport.
- `Hero.tsx` is left out. Its mouse tracking only feeds a CSS gradient.
- `About.tsx` is not modelled separately. Its only logic is the entrance flag, which `Visibility` models once for each content section (About, Skills, Projects, Gallery, Contact). The hero banner has no such flag.
- The theme provider is not part of this model.
- `console.log` is modelled as data: `HandleSubmit` returns the logged value next to the unchanged form.
- The `required` and `type="email"` checks are browser-enforced and are left out. Submitting with an empty field is therefore not modelled as blocked.
- Skill icons and colour gradients, project and section class names, transition delays and the static contact-method cards are presentation only.
- An empty entry batch is excluded by precondition. The callback would throw on it, and the observer never delivers one.
- The overlay covers the thumbnail grid while the lightbox is open. The model still accepts thumbnail clicks then, which is harmless: they only open another image consistently.
- The change-event target name is an enum of the three input names. The form has no other inputs, so no other key can be written.
- Gallery.NextImage: its postconditions apply only from a consistent state. The source states no behaviour outside the reachable states. The function is still total over the index, with JavaScript's remainder and `undefined` for out-of-range reads.
- Gallery.PrevImage: same as NextImage. Its postconditions apply only from a consistent state.
- An empty image list is excluded by precondition. JavaScript would compute `NaN` indexes there, and the site's list has three images.
- Closing the lightbox does not reset the index, and the model follows the code here: `CloseLightbox` states that the index is unchanged.
