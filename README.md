# SKB Visuals: reel feed and booking form, modelled in Dafny

This project models the two interactive parts of the SKB Visuals portfolio site.

**The reel feed** (`ReelShowcase.tsx`) covers:
- the fixed catalog of 19 reels and the category filter buttons;
- the category filter and the 12-per-page pager, which follows JavaScript's `slice` semantics;
- the lookup of the selected reel and the rule that decides when the modal player is shown;
- the cards' cycling aspect ratios;
- the event handlers: category change, page change, Previous/Next, card hover/leave/click, the mute toggle, and the modal's clicks.

**The booking form** (`ContactSection.tsx`) covers:
- the validation schema: trimming, length bounds, the email shape, and the required service;
- the issues a failed parse reports, in order;
- the field-to-message map the submit handler builds from those issues;
- the form's state: shown or hidden, the values, the errors, and the lifecycle from idle to sending to received, where the simulated delay becomes an explicit `TimerFires` transition.

Files:
- `wrappers.dfy`: `Option` and `Result`.
- `reel_feed.dfy` (module `ReelFeed`): the pure part of the feed.
- `reel_showcase.dfy` (module `ReelShowcase`): the components' state as classes. `VideoElement` is the part of an HTML media element that the handlers touch. `ReelCard` is one grid card. `Showcase` holds the showcase's state and handlers.
- `booking.dfy` (module `Booking`): the pure part of the form.
- `contact_section.dfy` (module `ContactSection`): the form's state as a class, `ContactForm`.

Three behaviours of the code are worth stating outright, since a reader of the page might expect otherwise:
- `totalPages` is `Math.ceil(n / 12)` with no lower bound, so an empty filter result has 0 pages, not 1. The page invariant is therefore `1 <= currentPage <= max(totalPages, 1)`.
- The service is checked only for being non-empty. It is not trimmed and not checked against the offered list (`Booking.ServiceNotCheckedAgainstList`).
- Every check of a field runs. The submit handler writes one message per issue in order, so a field with two failing checks shows the **last** message, not the first (`Booking.FieldShowsLastMessage`, `Booking.EmailLastMessageWins`).

## Model

| member | source | states |
|---|---|---|
| ReelFeed.FilterBy | src/components/ReelShowcase.tsx:179 | the result holds exactly the input reels of the category, and is no longer than the input |
| ReelFeed.FilterByIsSubsequence | src/components/ReelShowcase.tsx:179 | filtering keeps the catalog's order (the result is a subsequence) |
| ReelFeed.FilterByConcat | src/components/ReelShowcase.tsx:179 | filtering a concatenation is concatenating the filtered parts |
| ReelFeed.FilterByKeepsAll | src/components/ReelShowcase.tsx:179 | a run entirely of the category passes unchanged |
| ReelFeed.FilterByDropsAll | src/components/ReelShowcase.tsx:179 | a run with none of the category yields nothing |
| ReelFeed.Filter | src/components/ReelShowcase.tsx:176-179 | "All" gives the whole catalog; any other category gives exactly its reels, in catalog order |
| ReelFeed.FilterCatalog | src/components/ReelShowcase.tsx:45-72 | filtering the catalog by a category gives exactly that category's block of reels (5, 4, 3 and 7 reels) |
| ReelFeed.CategoryPageCounts | src/components/ReelShowcase.tsx:176-181 | "All" has 2 pages; each other filter button has 1 page |
| ReelFeed.TotalPages | src/components/ReelShowcase.tsx:181 | the page count is the least t with n <= 12t, and it is 0 exactly for 0 items |
| ReelFeed.RelativeIndex | src/components/ReelShowcase.tsx:182-185 | a slice index always lands in [0, len], and an in-range index is kept |
| ReelFeed.Slice | src/components/ReelShowcase.tsx:182-185 | `slice` yields only items of the list, never more than the span between its indices; for in-range indices it is the plain subsequence, and it is empty when the end does not pass the start |
| ReelFeed.Page | src/components/ReelShowcase.tsx:182-185 | any page number, negative ones included, yields at most 12 reels, all taken from the filtered list |
| ReelFeed.PageInRange | src/components/ReelShowcase.tsx:182-185 | a page in [1, totalPages] is the run s[(p-1)*12 .. min(p*12, n)]: it is non-empty and holds min(12, remaining) reels |
| ReelFeed.PageOutOfRange | src/components/ReelShowcase.tsx:182-185 | page 0 and pages past the last are empty |
| ReelFeed.PagesFromIsSuffix | src/components/ReelShowcase.tsx:181-185 | pages p..totalPages laid end to end are the suffix starting at item (p-1)*12 |
| ReelFeed.PagesReassemble | src/components/ReelShowcase.tsx:181-185 | pages 1..totalPages laid end to end give back the filtered list, with no gaps and no repeats |
| ReelFeed.Find | src/components/ReelShowcase.tsx:197 | a found reel is in the list and has the selected id; nothing is found exactly when no reel has that id, which is always the case for a null selection |
| ReelFeed.FindReturnsFirst | src/components/ReelShowcase.tsx:197 | the lookup returns the first reel with the selected id |
| ReelFeed.AspectRatio | src/components/ReelShowcase.tsx:112-113 | the card at position i gets the (i mod 3)-th of 3/4, 4/5, 1/1 |
| ReelFeed.AspectRatioCycles | src/components/ReelShowcase.tsx:112-113 | ratios repeat every three cards and are always one of the three |
| ReelFeed.CatalogIds | src/components/ReelShowcase.tsx:45-72 | the catalog has 19 reels with ids 1..19 in order |
| ReelFeed.CatalogIdsDistinct | src/components/ReelShowcase.tsx:45-72 | no two reels share an id |
| ReelFeed.CatalogHasVideos | src/components/ReelShowcase.tsx:45-72 | every reel has a video URL |
| ReelFeed.CatalogCategoriesListed | src/components/ReelShowcase.tsx:33-72 | every reel's category is one of the filter buttons other than "All" |
| ReelFeed.LookupById | src/components/ReelShowcase.tsx:197 | looking up id k in the catalog gives reel k when 1 <= k <= 19, and nothing otherwise |
| ReelFeed.ModalShown | src/components/ReelShowcase.tsx:280 | the modal shows exactly when the selection is a non-zero id that some reel of the list carries |
| ReelFeed.ModalShownIffResolves | src/components/ReelShowcase.tsx:280 | the modal's truthiness guard holds exactly when the selection resolves to a reel, that is, for ids 1..19 |
| ReelShowcase.VideoElement.constructor | src/components/ReelShowcase.tsx:303-309 | a newly mounted element is paused at time 0 and muted as requested; its `autoPlay` is a play request the caller makes |
| ReelShowcase.VideoElement.Play | src/components/ReelShowcase.tsx:90 | an honoured play request unpauses; a refused one changes nothing; time and mute are untouched |
| ReelShowcase.VideoElement.Pause | src/components/ReelShowcase.tsx:97 | the element is paused; time and mute are untouched |
| ReelShowcase.ReelCard.constructor | src/components/ReelShowcase.tsx:120-128 | a card has a muted, paused, rewound preview element exactly when its reel has a URL, and it starts idle |
| ReelShowcase.ReelCard.MouseEnter | src/components/ReelShowcase.tsx:86-92 | hovering starts; the preview is rewound to 0 and playing unless the browser refused; the card invariant holds |
| ReelShowcase.ReelCard.MouseLeave | src/components/ReelShowcase.tsx:94-100 | hovering stops; the preview is paused at 0 whatever became of the play request |
| ReelShowcase.ReelCard.Click | src/components/ReelShowcase.tsx:117 | the click reports the card's reel id |
| ReelShowcase.ReelCard.Ratio | src/components/ReelShowcase.tsx:112-113 | the card's aspect ratio is one of 3/4, 4/5, 1/1, chosen by its grid position mod 3 |
| ReelShowcase.Showcase.constructor | src/components/ReelShowcase.tsx:169-174 | starts on "All", page 1, nothing selected, muted, showing the first 12 reels of the catalog |
| ReelShowcase.Showcase.HandleCategoryChange | src/components/ReelShowcase.tsx:187-190 | sets the category and returns to page 1; for a listed category page 1 is within range; nothing else changes |
| ReelShowcase.Showcase.HandlePageChange | src/components/ReelShowcase.tsx:192-195 | sets the page and nothing else |
| ReelShowcase.Showcase.PaginationShown | src/components/ReelShowcase.tsx:256 | the Previous/Next controls render exactly when the filtered reels do not fit on one page (more than 12) |
| ReelShowcase.Showcase.PreviousEnabled | src/components/ReelShowcase.tsx:258-261 | "Previous" is enabled only with the controls shown, and from a page in range it leads to a page in range |
| ReelShowcase.Showcase.NextEnabled | src/components/ReelShowcase.tsx:268-271 | "Next" is enabled only with the controls shown, and from a page in range it leads to a page in range |
| ReelShowcase.Showcase.ClickPrevious | src/components/ReelShowcase.tsx:256-264 | goes back one page only when the controls show and the page is not 1; keeps 1 <= page <= max(totalPages, 1) |
| ReelShowcase.Showcase.ClickNext | src/components/ReelShowcase.tsx:268-276 | goes forward one page only when the controls show and the page is not the last; keeps the page within range |
| ReelShowcase.Showcase.SelectReel | src/components/ReelShowcase.tsx:245-250 | records the selection; the modal opens exactly for ids 1..19, showing reel k with a new element at time 0 whose mute follows the flag and which plays exactly when the browser allows autoplay |
| ReelShowcase.Showcase.ClickCard | src/components/ReelShowcase.tsx:245-250 | clicking a card of the current page opens the modal on that card's reel |
| ReelShowcase.Showcase.ToggleMute | src/components/ReelShowcase.tsx:199-206 | flips the flag and writes the flag's previous value onto the mounted element; nothing else changes |
| ReelShowcase.ToggleMuteTwice | src/components/ReelShowcase.tsx:199-206 | two toggles restore the flag and leave the element holding the flag's opposite |
| ReelShowcase.Showcase.ModalClick | src/components/ReelShowcase.tsx:286-322 | the backdrop and the close button dismiss the modal and unmount its element; the content pane swallows the click and leaves the element as it was; the mute button toggles the flag and writes the flag's previous value onto the element, leaving its time and play state alone |
| Booking.FormData.Set | src/components/ContactSection.tsx:45 | the updated field holds the new value and every other field is unchanged |
| Booking.MessageText | src/components/ContactSection.tsx:8-12 | every check's message is non-empty |
| Booking.Trim | src/components/ContactSection.tsx:8-12 | trimming never lengthens the text (its other properties are the lemmas below) |
| Booking.TrimStartSpec | src/components/ContactSection.tsx:8 | leading trim keeps a suffix that starts with a non-whitespace character and drops only whitespace |
| Booking.TrimEndSpec | src/components/ContactSection.tsx:8 | trailing trim keeps a prefix that ends with a non-whitespace character and drops only whitespace |
| Booking.TrimSpec | src/components/ContactSection.tsx:8 | trimmed text has no whitespace at either end, and is empty exactly when the input is all whitespace |
| Booking.TrimPadded | src/components/ContactSection.tsx:8 | trimming removes any whitespace padding from a string with no whitespace at its ends |
| Booking.TrimIdempotent | src/components/ContactSection.tsx:8 | trimming twice is trimming once |
| Booking.FieldOk | src/components/ContactSection.tsx:8-12 | an empty value passes exactly for the optional phone and message (and for the email only if the shape check accepts "") |
| Booking.Accepts | src/components/ContactSection.tsx:7-13 | an accepted form has a non-blank name, an email of the right shape, and a chosen service |
| Booking.AcceptsFieldByField | src/components/ContactSection.tsx:7-13 | the schema accepts exactly when each of the five fields passes its own checks |
| Booking.FieldIssues | src/components/ContactSection.tsx:8-12 | a field reports no issue exactly when it passes; every issue is about that field; at most two issues per field |
| Booking.Issues | src/components/ContactSection.tsx:7-13 | a parse reports no issue exactly when the form is accepted, and every issue names a failing field |
| Booking.SafeParse | src/components/ContactSection.tsx:59 | succeeds exactly when accepted, yielding the trimmed values with the service as typed; otherwise fails with the non-empty issue list |
| Booking.SafeParseIdempotent | src/components/ContactSection.tsx:7-13 | parsing the parsed values again succeeds with the same values |
| Booking.FieldErrorsSpec | src/components/ContactSection.tsx:61-66 | the map's keys are exactly the fields some issue is about, and each holds the message of the last issue about it |
| Booking.FieldErrors | src/components/ContactSection.tsx:61-66 | each issue adds at most one entry, so the map never holds more entries than there are issues (its keys and values are `FieldErrorsSpec`) |
| Booking.FieldErrorsNonEmpty | src/components/ContactSection.tsx:61-66 | every message in the map is non-empty, so the field-error guards read it as truthy |
| Booking.FieldErrorsConcat | src/components/ContactSection.tsx:61-66 | the map of two runs of issues is the second run's map laid over the first's |
| Booking.FieldErrorsOfBlock | src/components/ContactSection.tsx:61-66 | a run of issues about one field yields that field alone, with the run's last message |
| Booking.LastOfFiveBlocks | src/components/ContactSection.tsx:61-66 | with one run per field, each field's entry comes from its own run's last issue |
| Booking.BuildFieldErrors | src/components/ContactSection.tsx:61-66 | the loop builds the map: keys are the issues' fields, and each value is the last message for that field |
| Booking.SubmitErrorsAreFailingFields | src/components/ContactSection.tsx:58-66 | after a failed parse, exactly the failing fields have a message, and each message is non-empty |
| Booking.FieldShowsLastMessage | src/components/ContactSection.tsx:61-66 | a failing field shows the message of its last failing check |
| Booking.EmailLastMessageWins | src/components/ContactSection.tsx:9 | an over-long malformed email shows the length message, not "Invalid email address" |
| Booking.InitialSubmissionErrors | src/components/ContactSection.tsx:33-39 | submitting the untouched form fails, with exactly the name, email and service messages |
| Booking.ServiceNotCheckedAgainstList | src/components/ContactSection.tsx:11 | any non-empty service, even a single space that is not an offered service, passes the service check |
| Booking.RequiredFieldsSuffice | src/components/ContactSection.tsx:10-12 | with valid name, email and service, an empty phone and an empty message are accepted |
| Booking.JaneBookingAccepted | src/components/ContactSection.tsx:7-13 | the booking ("Jane", "jane@example.com", "", "Wedding Film", "") is accepted when the address-shape check accepts the email |
| Booking.MalformedEmailReported | src/components/ContactSection.tsx:9 | a malformed address always leaves a message on the email field |
| ContactSection.FailuresWithinLimitsAreShown | src/components/ContactSection.tsx:180-236 | within the inputs' maxLength limits, only name, email and service can fail, and they are the fields that render their messages; a failed submit always marks at least one of them |
| ContactSection.ContactForm.constructor | src/components/ContactSection.tsx:32-42 | starts hidden with all fields empty, no errors, and idle |
| ContactSection.ContactForm.ToggleForm | src/components/ContactSection.tsx:138 | shows or hides the form and keeps values, errors and lifecycle |
| ContactSection.ContactForm.HandleChange | src/components/ContactSection.tsx:44-53 | stores the value, clears that field's message, and keeps every other message; the invariant holds |
| ContactSection.ContactForm.Submit | src/components/ContactSection.tsx:55-77 | a submit of the rendered, enabled form either stores one message per failing field and stays idle, or clears the errors, starts sending and schedules the parsed values; otherwise nothing changes |
| ContactSection.ContactForm.TimerFires | src/components/ContactSection.tsx:70-76 | the delay logs the scheduled values and the booking is received |
| ContactSection.BookingJourney | src/components/ContactSection.tsx:55-77 | open, submit empty (three messages), fill in the required fields (messages cleared), submit, wait: the booking is received with the trimmed values and no errors |

## Left out

- The smooth scroll in `handlePageChange` is DOM I/O and is not modelled. Animations, images, icons, the social links and the other page sections are not part of this model.
- `LazyVideo` (src/components/ui/LazyVideo.tsx) is not part of this model. The card's preview element is taken to be the element the handlers reach through the ref.
- Whether the browser honours a play request is a parameter, because autoplay policy is outside the program: `playAllowed` for the card's `play()`, with the rejected promise swallowed as in the code, and `autoplayAllowed` for the modal element's `autoPlay`.
- ReelShowcase.Showcase.ToggleMute: React re-renders `muted={isMuted}` onto the modal element. That re-render is not modelled; the model keeps only what the handler writes.
- React's batching and scheduling of state updates are not modelled. Each handler is one atomic transition.
- The modal renders its element only for a reel with a URL. `Showcase.Valid` ties the element to the open modal alone, which is justified by `ReelFeed.CatalogHasVideos`.
- The optional `thumb` and `youtubeId` fields of a reel are never set in the catalog, and they are left out.
- The email address-shape check is the validation library's regular expression. It is a parameter `isEmail`, and only the facts the lemmas require of it are assumed.
- String lengths are counted in Unicode scalar values. JavaScript counts UTF-16 code units, and the two differ for characters outside the Basic Multilingual Plane.
- The long-message texts are the validation library's default messages for a maximum length. The schema does not give its own texts for them.
- `errors.form` is rendered but never set, so the error map is keyed by the five fields only.
- The 1.5-second delay of the simulated submission is not timed. Its callback is the transition `ContactForm.TimerFires`, which is enabled exactly while a callback is scheduled. The `console.log` becomes the value that transition returns.
- ContactSection.ContactForm.HandleChange: the handler is modelled without the rendering gate. The inputs exist only while the form is rendered, but the handler itself does not check this.
