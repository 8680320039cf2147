# Planning Map front end, modelled in Dafny

Planning Map is a React front end for a trip-planning service: users browse
points of interest (POIs) on lists and maps, like and bookmark them, build
itineraries by clicking on a map, import plannings, and receive notifications.
Administrators add POIs and manage the POI and user lists. Persistence,
routing and authentication live in a back end that is not part of this model.

The model keeps the deterministic logic of the front end, one Dafny module per
source file:

- the validators and formatters;
- the image-URL joiner and the request and response interceptors;
- the route-geometry decoder and the itinerary editor's click state machine;
- the paginated POI download loop and its query builders;
- the filter, sort and facet pipeline of the list pages, with the sort
  criteria that their navigation bars compose;
- the optimistic like and favourite toggles with their rollback;
- the notification store and the notification centre;
- the POI creation form and its multipart submission;
- the sign-up page, the side bar's menu and expansion map, the map views and
  the planning import page.

Every HTTP call is a parameter: an outcome that succeeded with the response's
data, or failed. React state becomes the fields of a class, and each handler
becomes a method whose `modifies` clause names that object. Every method's
`ensures` ties the new state to a pure function of the old state and the
inputs, and the properties the pages promise are lemmas about those functions.

Shared modules:

- Common: `Option`, the fetch outcome `Fetched`, JavaScript truthiness and
  `||` fallbacks, ASCII case folding, `trim`, `split`/`join`, and decimal
  printing.
- Lists: filter, map, subsequence and counting, with their laws.
- Sorting: a stable insertion sort with the pages' comparators, and the
  `field_direction` sort-criteria strings.
- Pois: the POI record and the filter, sort and facet pipeline shared by the
  list pages.
- Notices: the notification record and its list operations.

## Model

| member | source | states |
|---|---|---|
| Validators.EmailMatchesPattern | frontend/frontend/src/utils/validators.js:2-5 | `isValidEmail` (computed by scanning for the first '@' and an inner '.') holds exactly when the string matches `^[^\s@]+@[^\s@]+\.[^\s@]+$`, stated as the existence of the two split points |
| Validators.ValidEmailMatches | frontend/frontend/src/utils/validators.js:2-5 | every accepted e-mail matches the pattern (one direction of the equivalence) |
| Validators.PatternMatchValid | frontend/frontend/src/utils/validators.js:2-5 | every string matching the pattern is accepted (the other direction) |
| Validators.EmailHasOneAt | frontend/frontend/src/utils/validators.js:3 | an accepted e-mail holds exactly one '@' |
| Validators.PasswordAccepts | frontend/frontend/src/utils/validators.js:8-10 | a password is valid exactly when present with length at least 6; the falsy empty string never is |
| Validators.RangesNested | frontend/frontend/src/utils/validators.js:13-21 | latitude in [-90, 90], longitude in [-180, 180], rating in [0, 5], bounds included, `NaN` rejected by all three; each range is nested in the next |
| Validators.PhoneAccepts | frontend/frontend/src/utils/validators.js:24-27 | an accepted phone, once its whitespace is removed, is '+237', then '2' or '6', then eight digits (13 characters); such a string is accepted |
| Validators.PhoneIgnoresInsertedSpace | frontend/frontend/src/utils/validators.js:26 | inserting a run of whitespace anywhere never changes the answer |
| Validators.PhoneIgnoresStrippedSpace | frontend/frontend/src/utils/validators.js:26 | removing all whitespace first never changes the answer |
| Validators.DateRangeOrder | frontend/frontend/src/utils/validators.js:37-42 | a missing bound accepts; two distinct valid dates are accepted in exactly one order; equal dates are accepted; an invalid date against a valid one is rejected |
| Formatters.FormatDurationParts | frontend/frontend/src/utils/formatters.js:9-17 | for m > 0, h = m div 60 and r = m mod 60 satisfy 60h + r = m and r < 60; the text is '<r> min' when h = 0, '<h>h' when r = 0, and '<h>h <r>min' otherwise |
| Formatters.FormatDurationZero | frontend/frontend/src/utils/formatters.js:10 | a missing or zero duration prints '0 min' |
| Formatters.AgoBucketRanges | frontend/frontend/src/utils/formatters.js:44-57 | exactly one bucket per elapsed time: under 60 s, minutes, hours, days, else the date; each count n is the floor of elapsed/unit, so n·unit <= s < (n+1)·unit |
| Formatters.FormatPriceRange | frontend/frontend/src/utils/formatters.js:60-63 | '-' for a falsy level; otherwise exactly `level` copies of '€'; a negative level throws (`None`) |
| Formatters.FormatPhoneKeepsDigits | frontend/frontend/src/utils/formatters.js:66-74 | with exactly 12 digits the result is '+' and the digits grouped 3-1-2-2-2-2 (18 characters), and its digits are the input's digits; any other input comes back unchanged |
| Formatters.GroupPhoneDigits | frontend/frontend/src/utils/formatters.js:71 | dropping '+' and the spaces from the grouped text gives back the 12 digits |
| Formatters.FormatPhoneIdempotent | frontend/frontend/src/utils/formatters.js:66-74 | formatting a formatted number changes nothing |
| Formatters.TripStatusLookups | frontend/frontend/src/utils/formatters.js:77-98 | a known status gets its table colour and label; an unknown status gets the DRAFT colour and is echoed as its own label |
| Formatters.MemberRoleLookups | frontend/frontend/src/utils/formatters.js:101-118 | a known role gets its table label and colour; an unknown role gets the VIEWER colour and is echoed |
| RoutePanel.FormatSecondsParts | frontend/frontend/src/components/Map/RoutePanel.jsx:15-22 | for s > 0 seconds the printed hours h and minutes m satisfy 3600h + 60m <= s < 3600h + 60m + 60 with m < 60; the hour part is left out exactly when s is under an hour |
| RoutePanel.FormatSecondsMissing | frontend/frontend/src/components/Map/RoutePanel.jsx:16 | a missing or zero duration reads 'N/A' |
| RoutePanel.TotalDurationLabel | frontend/frontend/src/components/Map/RoutePanel.jsx:50 | the back end's formatted time wins when truthy; otherwise the seconds are formatted; the card is never blank |
| RoutePanel.SegmentLabel | frontend/frontend/src/components/Map/RoutePanel.jsx:73 | the instruction, else the street name, else 'Segment <index + 1>'; never blank |
| RoutePanel.FallbackLabelsDistinct | frontend/frontend/src/components/Map/RoutePanel.jsx:73 | two segments without instruction or street name at different indices get different labels |
| Api.ApiUrl | src/services/api.js:3 | the configured URL when set and non-empty, else the Render default; never empty |
| Api.GetImageURL | src/services/api.js:5-9 | the result is null exactly when the path is falsy |
| Api.ImageURLCases | src/services/api.js:5-9 | an 'http…' path is returned as it is; any other is appended to the base, with a '/' inserted exactly when the path does not start with one |
| Api.ImageURLEndsWithPath | src/services/api.js:8 | a joined URL always ends with the given path |
| Api.ImageURLIdempotent | src/services/api.js:5-9 | with a base starting with 'http', joining an already joined URL changes nothing |
| Api.DefaultApiUrlIsHttp | src/services/api.js:3 | the default base starts with 'http', so the idempotence above applies to it |
| Api.WithAuthorization | src/services/api.js:20-29 | with a stored token the Authorization header is 'Bearer <token>' and every other header is kept; without one the headers are unchanged |
| Api.WithAuthorizationIdempotent | src/services/api.js:20-29 | running the request interceptor twice gives the same headers as once |
| Api.AfterResponseError | src/services/api.js:32-43 | a 401 removes exactly 'token' and 'user' from storage; any other error leaves storage unchanged; no entry is ever added or altered |
| Api.BrowserStorage.OnResponseError | src/services/api.js:34-42 | the storage becomes the function above's result, and the page is sent to '/Connexion' exactly on a 401 |
| Api.RequestConfig.AttachToken | src/services/api.js:21-27 | the config's headers gain the Authorization header computed from the token in storage at that moment |
| Api.RequestConfig.constructor | src/services/api.js:11-17 | a request starts with the JSON content type as its only header |
| Notices.MarkRead | frontend/frontend/src/contexts/NotificationContext.jsx:58-60 | the list keeps its length; exactly the notifications with the id become read; the others are unchanged |
| Notices.MarkAllRead | frontend/frontend/src/contexts/NotificationContext.jsx:75 | the list keeps its length and every notification becomes read, its other properties unchanged |
| Notices.Without | frontend/frontend/src/contexts/NotificationContext.jsx:89 | the result is a subsequence of the list that holds no notification with the id and keeps every other notification |
| Notices.FindById | frontend/frontend/src/contexts/NotificationContext.jsx:88 | `find` returns None exactly when no notification has the id; otherwise the first notification of the list that has it |
| Notices.UnreadAfterMarkRead | frontend/frontend/src/contexts/NotificationContext.jsx:54-63 | marking an id read lowers the unread count by the number of unread notifications with that id |
| Notices.UnreadAfterDelete | frontend/frontend/src/contexts/NotificationContext.jsx:85-92 | deleting an id lowers the unread count by the number of unread notifications with that id |
| Notices.MarkAllLeavesNoneUnread | frontend/frontend/src/contexts/NotificationContext.jsx:72-76 | after marking all as read no notification is unread, which justifies setting the counter to 0 |
| Notices.AtMostOneUnreadWithId | frontend/frontend/src/contexts/NotificationContext.jsx:57-63 | with distinct ids, at most one unread notification has a given id, exactly when `wasUnread` finds one |
| Notices.FoundUnreadIffWasUnread | frontend/frontend/src/contexts/NotificationContext.jsx:88-92 | with distinct ids, the delete's test (found and unread) is the mark-as-read's `wasUnread` test |
| Notices.MarkReadIdempotent | frontend/frontend/src/contexts/NotificationContext.jsx:58-60 | marking the same id read twice equals marking it once |
| NotificationContext.MarkingReadTwiceChangesNothing | frontend/frontend/src/contexts/NotificationContext.jsx:57-63 | marking an id that is not unread changes no notification |
| Notices.OperationsKeepIdsDistinct | frontend/frontend/src/contexts/NotificationContext.jsx:54-99 | the three list operations keep notification ids distinct |
| NotificationContext.Decrement | frontend/frontend/src/contexts/NotificationContext.jsx:62 | `Math.max(0, prev - 1)`: never negative, one less from a positive counter |
| NotificationContext.Store.constructor | frontend/frontend/src/contexts/NotificationContext.jsx:11-12 | an empty list and a zero counter, which agree |
| NotificationContext.Store.SignedOut | frontend/frontend/src/contexts/NotificationContext.jsx:23-26 | signing out clears the list and the counter, which then agree |
| NotificationContext.Store.FetchData | frontend/frontend/src/contexts/NotificationContext.jsx:29-43 | both requests succeeding replace the list (the data, or an empty list when absent) and the counter (the data, or 0); a failure keeps both |
| NotificationContext.Store.FetchUnreadCount | frontend/frontend/src/contexts/NotificationContext.jsx:45-52 | the poll replaces only the counter, and only on success |
| NotificationContext.Store.MarkAsRead | frontend/frontend/src/contexts/NotificationContext.jsx:54-70 | the optimistic state is the marked list with the counter lowered exactly when the id was unread; a failure then reloads; on success a counter that agreed with the list still agrees |
| NotificationContext.Store.MarkAllAsRead | frontend/frontend/src/contexts/NotificationContext.jsx:72-83 | the optimistic state is every notification read and the counter 0; a failure then reloads; on success a consistent store stays consistent |
| NotificationContext.Store.DeleteNotification | frontend/frontend/src/contexts/NotificationContext.jsx:85-99 | the optimistic state is the list without the id, with the counter lowered exactly when the first notification found was unread; a failure then reloads; on success a consistent store stays consistent |
| NotificationCenter.MarkAllButton | src/components/layout/Notifications.jsx:89-97 | the "mark all as read" button shows exactly when the unread count is positive, and never right after marking all as read |
| NotificationCenter.Page.constructor | src/components/layout/Notifications.jsx:9-11 | the page starts with no notification and no error |
| NotificationCenter.ShowsMarkAllAfterDelete | src/components/layout/Notifications.jsx:56-65 | after a delete the button shows exactly when some unread notification has another id |
| NotificationCenter.Page.Fetch | src/components/layout/Notifications.jsx:13-25 | a success replaces the list with the data, or an empty list when absent, and clears the error; a failure keeps the list and sets the error message |
| NotificationCenter.Page.HandleMarkAsRead | src/components/layout/Notifications.jsx:31-43 | the list becomes the marked list; a failed call reloads it |
| NotificationCenter.Page.HandleMarkAllAsRead | src/components/layout/Notifications.jsx:45-54 | every notification becomes read, hiding the button; a failed call reloads |
| NotificationCenter.Page.HandleDelete | src/components/layout/Notifications.jsx:56-65 | no notification with the id remains; a failed call reloads |
| CreatePoi.Keys | src/app/Admin/ajouterPoI/page.jsx:130 | the keys of an insertion-ordered object, one per entry, in order |
| CreatePoi.Get | src/app/Admin/ajouterPoI/page.jsx:63 | a property lookup is undefined exactly when the key is absent |
| CreatePoi.PutSpec | src/app/Admin/ajouterPoI/page.jsx:60-71 | `{ ...o, [k]: v }` reads back `v` under `k` and leaves every other key as it was; a new key goes last, an existing one keeps its place; keys stay distinct |
| CreatePoi.InitialFormShape | src/app/Admin/ajouterPoI/page.jsx:19-50 | the initial form has the fifteen keys in their written order, all distinct, with a null image and the tags and amenities arrays |
| CreatePoi.InputChangeKeeps | src/app/Admin/ajouterPoI/page.jsx:56-73 | an input change alters only the top-level field its name touches and keeps keys distinct |
| CreatePoi.PlainInputChange | src/app/Admin/ajouterPoI/page.jsx:67-71 | a name without a dot sets that field to the typed text and nothing else |
| CreatePoi.DottedInputChange | src/app/Admin/ajouterPoI/page.jsx:58-66 | `parent.child` sets `child` inside `parent`, keeping the record's other children and the other top-level fields |
| CreatePoi.PlaceFieldsSpec | src/app/Admin/ajouterPoI/page.jsx:87-96 | the four fields a place selection writes get their new values; no other field changes; keys stay distinct |
| CreatePoi.PlaceSelect | src/app/Admin/ajouterPoI/page.jsx:87-96 | the selection throws (None) exactly when the form's name is empty and the place has no name |
| CreatePoi.PlaceSelectSpec | src/app/Admin/ajouterPoI/page.jsx:87-96 | a truthy name is kept and an empty one becomes the comma-free prefix of the place's name; `latitude` wins over `lat` and `longitude` over `lon` when truthy; other fields are unchanged |
| CreatePoi.ToggleAmenity | src/app/Admin/ajouterPoI/page.jsx:98-105 | the amenity is in the result exactly when it was not in the list; every other amenity keeps its membership |
| CreatePoi.ToggleTwice | src/app/Admin/ajouterPoI/page.jsx:98-105 | toggling twice restores the set of amenities, and the list itself when the amenity was absent |
| CreatePoi.Tags | src/app/Admin/ajouterPoI/page.jsx:107-110 | every tag is non-empty and trimmed, and there are at most one more tags than commas |
| CreatePoi.TagsRoundTrip | src/app/Admin/ajouterPoI/page.jsx:107-110 | tags typed back as the text 'a, b, c' parse to the same tags |
| CreatePoi.EscapeRoundTrip | src/app/Admin/ajouterPoI/page.jsx:135 | the string escaping of `JSON.stringify` can be read back, so no field text is lost |
| CreatePoi.ImagePart | src/app/Admin/ajouterPoI/page.jsx:142-144 | the image part is always named 'image', and is a file part exactly when the value is a file |
| CreatePoi.FieldPartNames | src/app/Admin/ajouterPoI/page.jsx:130-139 | the loop sends one part per key except 'image', in the form's key order |
| CreatePoi.FieldPartTexts | src/app/Admin/ajouterPoI/page.jsx:130-139 | with distinct keys, each part sent carries the text of the value under its name |
| CreatePoi.SubmissionSpec | src/app/Admin/ajouterPoI/page.jsx:128-144 | the body names every field but the image once, in order, followed by 'image' exactly when the image is truthy |
| CreatePoi.SubmissionWithoutImage | src/app/Admin/ajouterPoI/page.jsx:128-144 | with a null image, the body names exactly the non-image keys |
| CreatePoi.InitialSubmission | src/app/Admin/ajouterPoI/page.jsx:19-50 | submitting the untouched form sends the eleven fields before 'image', in order, and no image |
| CreatePoi.PoiForm.constructor | src/app/Admin/ajouterPoI/page.jsx:16-50 | the initial form, no categories, categories loading |
| CreatePoi.PoiForm.LoadCategories | src/app/Admin/ajouterPoI/page.jsx:75-85 | the categories become the categories received, or none when absent, on success; a failure keeps them and alerts; loading ends either way |
| CreatePoi.PoiForm.HandleInputChange | src/app/Admin/ajouterPoI/page.jsx:56-73 | the form becomes the input change's result; only the touched key changes; the form's shape is kept |
| CreatePoi.PoiForm.HandlePlaceSelect | src/app/Admin/ajouterPoI/page.jsx:87-96 | the form becomes the place selection's result, or is unchanged where the handler throws |
| CreatePoi.PoiForm.HandleAmenityChange | src/app/Admin/ajouterPoI/page.jsx:98-105 | the amenities become the toggled list; the form's shape is kept |
| CreatePoi.PoiForm.HandleTagsChange | src/app/Admin/ajouterPoI/page.jsx:107-110 | the tags become the parsed list; the form's shape is kept |
| CreatePoi.PoiForm.HandleImageChange | src/app/Admin/ajouterPoI/page.jsx:112-120 | a chosen file becomes the image; no file changes nothing |
| CreatePoi.PoiForm.Submit | src/app/Admin/ajouterPoI/page.jsx:122-171 | the body sent is the submission above, built by the page's loop; success redirects to the POI list; a refusal alerts with the server's message or the default; an unreachable server alerts with the error |
| Inscription.WithValue | frontend/frontend/src/app/Inscription/page.jsx:32-37 | the edited field takes the new text, every other field and the photo keep theirs |
| Inscription.WithValueLaws | frontend/frontend/src/app/Inscription/page.jsx:32-37 | typing the value a field already holds changes nothing; of two edits of one field the later wins |
| Inscription.ValidationError | frontend/frontend/src/app/Inscription/page.jsx:55-64 | the mismatch message exactly when the passwords differ; the length message exactly when they match and the username is under 3 characters; no error otherwise |
| Inscription.PayloadCarriesFields | frontend/frontend/src/app/Inscription/page.jsx:70-78 | the payload carries every field but the confirmation, unchanged; the confirmation never reaches the server; a photo URL is sent exactly when a photo was chosen |
| Inscription.SubmitStepAsWritten | frontend/frontend/src/app/Inscription/page.jsx:51-98 | as written: a valid form with a photo makes the handler throw instead of sending |
| Inscription.PhotoNeverSentAsWritten | frontend/frontend/src/app/Inscription/page.jsx:77 | as written, no valid form with a photo is ever sent and the user sees the generic error, where the intended handler sends it |
| Inscription.PhotoCounterexample | frontend/frontend/src/app/Inscription/page.jsx:77 | a concrete valid form with a photo that the written handler fails to send |
| Inscription.SubmitStepsAgreeWithoutPhoto | frontend/frontend/src/app/Inscription/page.jsx:77 | both handlers agree on every form without a photo |
| Inscription.SubmitStepSpec | frontend/frontend/src/app/Inscription/page.jsx:51-98 | the intended handler sends exactly the valid forms, with the payload above, and never throws; an invalid form shows the first failing check's message |
| Inscription.RedirectFor | frontend/frontend/src/app/Inscription/page.jsx:84-89 | an ADMIN goes to the admin dashboard and everyone else to the user dashboard |
| Inscription.SignUpPage.constructor | frontend/frontend/src/app/Inscription/page.jsx:16-29 | an empty form, no error, not loading, no preview |
| Inscription.SignUpPage.HandleChange | frontend/frontend/src/app/Inscription/page.jsx:32-37 | the form becomes the edited form; nothing else changes |
| Inscription.SignUpPage.HandlePhotoChange | frontend/frontend/src/app/Inscription/page.jsx:39-49 | a chosen file becomes the photo and its data URL the preview; no file changes nothing |
| Inscription.SignUpPage.HandleSubmit | frontend/frontend/src/app/Inscription/page.jsx:51-98 | an invalid form shows its message and sends nothing; a valid one sends the intended payload, then redirects by role or shows the server's error (or the default) |
| SideBar.MenuGroups | frontend/frontend/src/components/layout/SideBar.jsx:29-71 | a role without a menu sees none; the administrator's POI group is the only group |
| SideBar.HighlightStricterThanOpening | frontend/frontend/src/components/layout/SideBar.jsx:112-116 | a highlighted group is always one its page opens, but a page below one of its links opens it without highlighting it |
| SideBar.ToggleSpec | frontend/frontend/src/components/layout/SideBar.jsx:86-88 | a toggle flips exactly the given id; a second toggle restores what is shown |
| SideBar.OpenedSnoc | frontend/frontend/src/components/layout/SideBar.jsx:76-84 | the groups a menu opens are those its first items open, plus the last when the pathname opens it |
| SideBar.AutoExpandedSpec | frontend/frontend/src/components/layout/SideBar.jsx:76-84 | the effect sets to true exactly the groups the pathname opens and leaves every other entry as it was |
| SideBar.AutoExpandedNeverCloses | frontend/frontend/src/components/layout/SideBar.jsx:76-84 | the effect never closes a sub-menu, opens every group the pathname opens, and changes nothing for a menu without groups |
| SideBar.RoleMenusExpansion | frontend/frontend/src/components/layout/SideBar.jsx:29-84 | on every page under either administrator POI link the POI sub-menu is open; the other roles' menus open nothing |
| SideBar.SubItemsShown | frontend/frontend/src/components/layout/SideBar.jsx:140 | a group opened by the pathname shows its links exactly when the bar is open |
| SideBar.SideBarState.constructor | frontend/frontend/src/components/layout/SideBar.jsx:73 | nothing is expanded at first |
| SideBar.SideBarState.ToggleSubMenu | frontend/frontend/src/components/layout/SideBar.jsx:86-88 | the map becomes the toggled map, and the group's visibility flips |
| SideBar.SideBarState.AutoExpand | frontend/frontend/src/components/layout/SideBar.jsx:76-84 | the page's loop gives the map the effect's result, so no open sub-menu closes |
| ImportPlanning.Status | frontend/frontend/src/app/User/importerPlanning/page.jsx:89-145 | a row shows imported exactly when its name was imported; otherwise downloading exactly when it is the planning being downloaded; otherwise the button |
| ImportPlanning.ImportPage.constructor | frontend/frontend/src/app/User/importerPlanning/page.jsx:15-20 | no plannings, no imported names, loading, no download |
| ImportPlanning.ImportPage.Load | frontend/frontend/src/app/User/importerPlanning/page.jsx:23-39 | on success the plannings and the local names, in order, and every planning with a local name shows as imported; a failure keeps both; loading ends either way |
| ImportPlanning.ImportPage.StartDownload | frontend/frontend/src/app/User/importerPlanning/page.jsx:42-45 | the planning is being downloaded at 30%, and its row shows it unless already imported |
| ImportPlanning.ImportPage.FinishDownload | frontend/frontend/src/app/User/importerPlanning/page.jsx:47-59 | a success puts the progress at 100% and appends the name, so the row shows imported; a failure alerts, clears the download, and every row not imported shows its button again |
| ImportPlanning.ImportPage.DownloadTimerFires | frontend/frontend/src/app/User/importerPlanning/page.jsx:53 | the timer clears the download and nothing else |
| ImportPlanning.DownloadOutcome | frontend/frontend/src/app/User/importerPlanning/page.jsx:42-59 | a successful download keeps every imported row imported and adds the downloaded one; a failed one leaves a button |
| Polyline.ScanNumber | src/app/User/Itineraire/create/page.jsx:100 | a number scanned from the text is well formed and the text is its printed form followed by what remains, which is shorter |
| Polyline.ParseNums | src/app/User/Itineraire/create/page.jsx:100 | a parsed list of numbers is non-empty and well formed, and the text is its printed form followed by what remains |
| Polyline.ParseItem | src/app/User/Itineraire/create/page.jsx:100 | a parsed element is well formed, and the text is its printed form followed by what remains |
| Polyline.ParseItems | src/app/User/Itineraire/create/page.jsx:100 | parsed elements are non-empty and well formed, and the text is their printed form followed by what remains |
| Polyline.ParseDocument | src/app/User/Itineraire/create/page.jsx:100-101 | every accepted document is the printed form of the well-formed array it yields (no text is accepted for another tree) |
| Polyline.ScanNumberPrinted | src/app/User/Itineraire/create/page.jsx:100 | a printed number followed by a delimiter scans back to the same literal |
| Polyline.ParseNumsPrinted | src/app/User/Itineraire/create/page.jsx:100 | printed numbers followed by ']' parse back to the same list |
| Polyline.ParseItemsPrinted | src/app/User/Itineraire/create/page.jsx:100 | printed elements followed by ']' parse back to the same list |
| Polyline.DocumentRoundTrip | src/app/User/Itineraire/create/page.jsx:100-101 | parsing a printed well-formed array gives it back, so the parser accepts exactly the printed forms |
| Polyline.RepairItem | src/app/User/Itineraire/create/page.jsx:104-111 | a four-number point becomes the two numbers 'p0.p1' and 'p2.p3'; any other point keeps its values |
| Polyline.RepairAll | src/app/User/Itineraire/create/page.jsx:104-111 | one repaired point per element, in order |
| Polyline.DecodeFallbacks | src/app/User/Itineraire/create/page.jsx:92-117 | an array is returned as it is; falsy values, other non-strings, text not starting with '[' and unparsable text give the empty list |
| Polyline.DecodeIgnoresWhitespace | src/app/User/Itineraire/create/page.jsx:97-100 | two texts starting with '[' with the same whitespace-free form decode alike |
| Polyline.DecodeIgnoresInsertedWhitespace | src/app/User/Itineraire/create/page.jsx:99 | inserting whitespace after the opening '[' never changes the result |
| Polyline.PrintItemsNoSpace | src/app/User/Itineraire/create/page.jsx:99 | printed geometry holds no whitespace, so stripping it leaves the text unchanged |
| Polyline.DecodePrinted | src/app/User/Itineraire/create/page.jsx:92-117 | decoding printed geometry yields one repaired point per element, in order |
| Polyline.CanonicalDigits | src/app/User/Itineraire/create/page.jsx:106 | the digits of a whole number without a leading zero print back as the same digits |
| Polyline.SplitDecimalOfInt | src/app/User/Itineraire/create/page.jsx:106-107 | parsing the text 'a.b' as a float, for an integer a under 10^21 in magnitude and a whole b appends b's digits after the point, away from zero |
| Polyline.NumValueLiteral | src/app/User/Itineraire/create/page.jsx:106-107 | the values of the literals a, b and a.b, where a is signed |
| Polyline.SplitDecimalReadsFraction | src/app/User/Itineraire/create/page.jsx:103-108 | the repair of [a, b] equals the value of the literal a.b for canonical integers under 22 digits (a not a negative zero) |
| RouteGeometry.SegmentEnds | frontend/frontend/src/components/Map/ItineraryMap.jsx:23-24 | a segment contributes one position per end present |
| RouteGeometry.CollectPoints | frontend/frontend/src/components/Map/ItineraryMap.jsx:21-25 | the loop collects the segments' present ends, start before end, in segment order |
| RouteGeometry.SegmentPointsLength | frontend/frontend/src/components/Map/ItineraryMap.jsx:21-25 | as many points as segments with a start plus segments with an end |
| RouteGeometry.PolylinePositions | frontend/frontend/src/components/Map/ItineraryMap.jsx:75-80 | the polyline exists exactly when every segment has both ends (otherwise rendering throws), with two positions per segment |
| RouteGeometry.PolylineIndex | frontend/frontend/src/components/Map/ItineraryMap.jsx:77-80 | positions 2i and 2i+1 are the start and the end of segment i |
| RouteGeometry.PolylineIsCollectedPoints | frontend/frontend/src/components/Map/ItineraryMap.jsx:21-80 | with complete segments the polyline drawn and the points fitted are the same sequence |
| ItineraryMap.Controller | frontend/frontend/src/components/Map/ItineraryMap.jsx:16-45 | a route with segments is fitted to its points (none when they carry no point); otherwise both places are fitted, one place is centred at zoom 13, or nothing happens |
| ItineraryMap.NoFallbackToPlaces | frontend/frontend/src/components/Map/ItineraryMap.jsx:20-30 | a route whose segments carry no point fits nothing, and does not fall back to the places |
| InteractiveMap.Center | src/components/Map/InteractiveMap.jsx:79-84 | the first segment's start when the route has segments (None where that start is missing and rendering throws), else the start point, else Yaoundé |
| InteractiveMap.CollectAllPositions | src/components/Map/InteractiveMap.jsx:87-104 | the render's pushes give the route's segment ends, then every POI, then the start point, then the end point |
| InteractiveMap.AllPositionsLength | src/components/Map/InteractiveMap.jsx:87-104 | one position per present segment end, per POI and per given start or end point |
| InteractiveMap.FitsBoundsWhenSomethingToShow | src/components/Map/InteractiveMap.jsx:150 | the view is fitted exactly when some segment end, some POI, or a start or end point is given |
| InteractiveMap.CenterIsShown | src/components/Map/InteractiveMap.jsx:79-104 | whenever the centre is not the default it is one of the positions the view is fitted to |
| InteractiveMap.MarkerLayer.constructor | src/components/Map/InteractiveMap.jsx:67 | the map's local POIs start as the given ones |
| InteractiveMap.MarkerLayer.Sync | src/components/Map/InteractiveMap.jsx:70-72 | new props replace the local POIs |
| InteractiveMap.MarkerLayer.HandleReaction | src/components/Map/InteractiveMap.jsx:223-285 | every POI with the marker's id flips its like (or favourite) and moves its counter; the request follows the marker's own flag; success notifies the parent; failure restores the list |
| InteractiveMap.MarkerEntryAgreesWithCall | src/components/Map/InteractiveMap.jsx:227-246 | for the marker's own entry the new flag is set exactly when a like (or add) request is sent, and reacting back restores the entry |
| Pois.KeyOf | src/app/User/PoIList/page.jsx:81-86 | a POI's key is `poiId` when truthy, else `id`, on the pages keyed that way; `poiId` alone on the map |
| Pois.WithoutKey | frontend/frontend/src/app/Admin/PoIList/page.jsx:87 | the list after a delete is a subsequence of the old one, holds no POI with the deleted key, keeps every other POI, and is shorter by exactly the number of POIs with that key |
| Pois.React | src/app/User/PoIList/page.jsx:85-95 | the flag becomes the new value; its counter (missing read as 0) goes up by one when set, down by one but never below 0 when cleared; the rest of the POI, and the POI itself after restoring the flag and counter, are unchanged |
| Pois.ReactTwiceRestores | src/app/User/PoIList/page.jsx:80-138 | with a present counter consistent with the flag, reacting and reacting back restores the POI |
| Pois.ReactMatching | src/app/User/PoIList/page.jsx:85-95 | same length; POIs with another key are unchanged; matching POIs are reacted; keys are kept; non-negative counters stay non-negative |
| Pois.ReactMatchingLeavesOther | src/app/User/PoIList/page.jsx:80-138 | liking never moves a favourite, and the reverse |
| Pois.CallFor | src/app/User/PoIList/page.jsx:97-102 | the request targets the POI's key; it is a like or an add exactly when the flag was clear; it concerns likes exactly for the like button |
| Pois.FilterPoisIsOneFilter | frontend/frontend/src/app/Admin/PoIList/page.jsx:121-146 | the three successive filters are one filter by the conjunction of the active tests |
| Pois.FilterPoisSpec | frontend/frontend/src/app/Admin/PoIList/page.jsx:121-146 | the filtered list is a subsequence of the POIs that holds every POI matching all active filters and no other |
| Pois.FilterPoisNone | frontend/frontend/src/app/Admin/PoIList/page.jsx:125-146 | with no selection the list is left as it is |
| Pois.SortPoisSpec | frontend/frontend/src/app/Admin/PoIList/page.jsx:148-173 | the sorted list is a permutation of its input, ordered by the field's key: non-decreasing for 'asc', non-increasing for any other direction; POIs with equal keys keep their input order |
| Pois.NothingSelectedKeepsList | frontend/frontend/src/app/Admin/PoIList/page.jsx:121-176 | with nothing selected and no criteria the pipeline returns the POIs as they are |
| Pois.InitialCriteriaKeepsOrder | frontend/frontend/src/app/Admin/PoIList/page.jsx:148-173 | the criteria '_asc', sent before a field is chosen, sorts on a field no POI has and so keeps the order |
| Pois.TownValues | frontend/frontend/src/app/Admin/PoIList/page.jsx:183-186 | the town values are exactly the non-empty city (or, failing it, town) of some POI |
| Pois.AvailableTowns | frontend/frontend/src/app/Admin/PoIList/page.jsx:183-187 | the town menu is strictly sorted, so free of duplicates, and holds exactly the non-empty towns of the POIs |
| Pois.CategoryCountsSpec | frontend/frontend/src/app/Admin/PoIList/page.jsx:190-196 | the counts are keyed by exactly the truthy category names present, and each count is the number of POIs of that category |
| Pois.CategoryValues | src/app/User/PoIList/page.jsx:208-214 | the category values are exactly the non-empty category names of some POI |
| Pois.AvailableTypes | src/app/User/PoIList/page.jsx:217 | the category menu is strictly sorted and holds exactly the counted names |
| Pois.FindCategory | frontend/frontend/src/app/Admin/PoIList/page.jsx:214 | `find` gives None exactly when no category has the name, otherwise a category with that name |
| Pois.FindCategoryFirst | frontend/frontend/src/app/Admin/PoIList/page.jsx:214 | `find` gives the first category with the name |
| Pois.CategoryColor | frontend/frontend/src/app/Admin/PoIList/page.jsx:213-216 | an unknown category gets '#3498DB'; a known one its truthy colour; never empty |
| Pois.CategoryIcon | frontend/frontend/src/app/Admin/PoIList/page.jsx:219-222 | an unknown category gets '📍'; a known one its truthy icon; never empty |
| Pois.UnknownCategoryDefaults | frontend/frontend/src/app/Admin/PoIList/page.jsx:213-222 | a category absent from the list gets the default colour and icon |
| Pois.ApplyListing | frontend/frontend/src/app/Admin/PoIList/page.jsx:61-70 | a paged response gives its content and totals (0 when absent); otherwise the data or an empty list, counted by its length, on one page |
| Pois.AfterFetch | frontend/frontend/src/app/Admin/PoIList/page.jsx:40-79 | no error exactly when the list request succeeds and categories are held or arrive; an error keeps the POIs and totals; categories are fetched only while none are held |
| UserPoiList.FavoritesQuery | src/app/User/PoIList/page.jsx:47 | the favourites request carries exactly the page and the size |
| UserPoiList.FavoritesPage.constructor | src/app/User/PoIList/page.jsx:15-29 | empty data, page 0 of size 20, nothing selected |
| UserPoiList.FavoritesPage.FetchData | src/app/User/PoIList/page.jsx:35-67 | the page's data becomes the fetch result above; the selections are unchanged; the request is the favourites query |
| UserPoiList.FavoritesPage.HandleDelete | src/app/User/PoIList/page.jsx:69-78 | a success removes exactly the POIs with the key; a failure alerts and keeps the list |
| UserPoiList.FavoritesPage.HandleReaction | src/app/User/PoIList/page.jsx:80-138 | every POI keyed like the target takes the negation of the target's flag; the request follows the target's flag; a failure reloads the page |
| UserPoiList.FavoritesPage.HandleSearchChange | src/app/User/PoIList/page.jsx:140 | only the search term changes |
| UserPoiList.FavoritesPage.HandleSortChange | src/app/User/PoIList/page.jsx:141 | only the criteria change |
| UserPoiList.FavoritesPage.HandleFilterChange | src/app/User/PoIList/page.jsx:142-145 | only the town and the category change |
| UserPoiList.FavoritesPage.SetPageSize | src/app/User/PoIList/page.jsx:26-27 | a new size goes back to the first page; nothing else changes |
| UserPoiList.LikeChangesOnlyTarget | src/app/User/PoIList/page.jsx:85-95 | a like changes only the POIs keyed like the target, each in its flag and counter alone |
| AdminPoiList.CatalogueQuery | frontend/frontend/src/app/Admin/PoIList/page.jsx:52-57 | the request carries the page and the size, and a category and a search exactly when they are non-empty |
| AdminPoiList.CatalogueList.constructor | frontend/frontend/src/app/Admin/PoIList/page.jsx:17-31 | empty data, page 0 of size 20, nothing selected |
| AdminPoiList.CatalogueList.FetchData | frontend/frontend/src/app/Admin/PoIList/page.jsx:40-79 | the page's data becomes the fetch result above; the request is the catalogue query for the current selections |
| AdminPoiList.CatalogueList.HandleDelete | frontend/frontend/src/app/Admin/PoIList/page.jsx:84-93 | a success removes exactly the POIs with the key; a failure alerts and keeps the list |
| AdminPoiList.CatalogueList.HandleFilterChange | frontend/frontend/src/app/Admin/PoIList/page.jsx:113-116 | only the town and the category change |
| AdminPoiList.CatalogueList.HandleSearchChange | frontend/frontend/src/app/Admin/PoIList/page.jsx:111 | only the search term changes |
| AdminPoiList.CatalogueList.HandleSortChange | frontend/frontend/src/app/Admin/PoIList/page.jsx:112 | only the criteria change |
| AdminPoiList.CatalogueList.ClearFilters | frontend/frontend/src/app/Admin/PoIList/page.jsx:293-299 | category, town and search are cleared; nothing else changes |
| AdminPoiList.CatalogueList.SetPageSize | frontend/frontend/src/app/Admin/PoIList/page.jsx:494-498 | a new size goes back to the first page; nothing else changes |
| AdminPoiList.ClearedShowsEverything | frontend/frontend/src/app/Admin/PoIList/page.jsx:121-176 | after clearing the filters, with no criteria, every POI held is shown in order |
| AdminPoiList.CatalogueDateOrder | frontend/frontend/src/app/Admin/PoIList/page.jsx:158-160 | in an ascending date sort the POIs with neither date come first |
| AdminPoiList.UndatedFirst | frontend/frontend/src/app/Admin/PoIList/page.jsx:158-170 | in the ascending date order only an undated POI may come before an undated one |
| Sorting.StrLeTotal | frontend/frontend/src/app/Admin/PoIList/page.jsx:169-170 | JavaScript's code-unit order on strings is total |
| Sorting.StrLeTrans | frontend/frontend/src/app/Admin/PoIList/page.jsx:169-170 | the string order is transitive |
| Sorting.StrLeAntisym | frontend/frontend/src/app/Admin/PoIList/page.jsx:169-170 | the string order is antisymmetric |
| Sorting.KeyLeTrans | frontend/frontend/src/app/Admin/PoIList/page.jsx:169-170 | the order on sort keys (text or number) is transitive; with totality it makes the comparator consistent |
| Sorting.Insert | frontend/frontend/src/app/Admin/PoIList/page.jsx:152-172 | inserting into a sorted list keeps it sorted and adds exactly the element |
| Sorting.SortBy | frontend/frontend/src/app/Admin/PoIList/page.jsx:152-172 | the result is a permutation of the input, sorted by the key in the requested direction |
| Sorting.SortByEqualKeys | frontend/frontend/src/app/Admin/PoIList/page.jsx:171 | when every key is equal, the sort (stable, like `Array.prototype.sort`) keeps the order |
| Sorting.SortByStable | frontend/frontend/src/app/Admin/PoIList/page.jsx:152-172 | the sort is stable: for every key, the elements with that key appear in the result in their input order |
| Sorting.InsertUnique | frontend/frontend/src/app/Admin/PoIList/page.jsx:183-187 | inserting into a strictly sorted list keeps it strictly sorted, with exactly the element added |
| Sorting.SortedSet | frontend/frontend/src/app/Admin/PoIList/page.jsx:183-187 | `[...new Set(xs)].sort()`: strictly sorted, with exactly the strings of the input, and no longer than it |
| Sorting.DistinctCard | frontend/frontend/src/app/Admin/PoIList/page.jsx:183-187 | a strictly sorted list has as many elements as distinct values |
| Sorting.CriteriaRoundTrip | frontend/frontend/src/app/Admin/PoIList/page.jsx:150 | splitting the criteria a nav bar emits on '_' gives back its field and direction, and the sort is ascending exactly for 'asc' |
| PoiListNavBar.TypeLabel | frontend/frontend/src/components/layout/PoIListNavBar.jsx:102 | the label has the length of the type, its first character upper-cased and the rest unchanged |
| PoiListNavBar.NavBar.constructor | frontend/frontend/src/components/layout/PoIListNavBar.jsx:8-12 | nothing typed or selected, direction 'asc', so the first criteria emitted are '_asc' |
| PoiListNavBar.NavBar.HandleSearch | frontend/frontend/src/components/layout/PoIListNavBar.jsx:20-26 | the term is kept and reported; nothing else changes |
| PoiListNavBar.NavBar.HandleFieldChange | frontend/frontend/src/components/layout/PoIListNavBar.jsx:28-35 | the field changes and the criteria reported join it with the current direction, as the effect also emits |
| PoiListNavBar.NavBar.HandleDirectionToggle | frontend/frontend/src/components/layout/PoIListNavBar.jsx:37-43 | the direction changes and the criteria reported join the current field with it |
| PoiListNavBar.NavBar.ClickDirection | frontend/frontend/src/components/layout/PoIListNavBar.jsx:126-150 | clicking the direction already chosen reports nothing; the other reports the criteria with the new direction |
| PoiListNavBar.NavBar.HandleTownChange | frontend/frontend/src/components/layout/PoIListNavBar.jsx:45-51 | the town changes and the report pairs it with the current type |
| PoiListNavBar.NavBar.HandleTypeChange | frontend/frontend/src/components/layout/PoIListNavBar.jsx:53-59 | the type changes and the report pairs the current town with it |
| PoiListNavBar.EmittedRoundTrip | frontend/frontend/src/components/layout/PoIListNavBar.jsx:14-43 | every criteria the bar can emit is read back by the list pages as its own field and direction |
| UserListNavBar.TownOptions | src/components/layout/UserListNavBar.jsx:100-104 | no options when no list is given; the selector throws exactly when a town is `null` or missing; otherwise one option per town, valued by the town and captioned with it capitalised |
| UserListNavBar.CountryOptions | src/components/layout/UserListNavBar.jsx:87-90 | one option per country, valued by it and captioned by its text (empty for `null` or missing); none when no list is given |
| UserListNavBar.NavBar.constructor | src/components/layout/UserListNavBar.jsx:9-13 | nothing typed or selected, direction 'asc', so the first criteria emitted are '_asc' |
| UserListNavBar.NavBar.HandleSearch | src/components/layout/UserListNavBar.jsx:21-27 | the term is kept and reported; nothing else changes |
| UserListNavBar.NavBar.HandleFieldChange | src/components/layout/UserListNavBar.jsx:29-36 | the field changes and the criteria reported join it with the current direction |
| UserListNavBar.NavBar.HandleDirectionToggle | src/components/layout/UserListNavBar.jsx:38-44 | the direction changes and the criteria reported join the current field with it |
| UserListNavBar.NavBar.ClickDirection | src/components/layout/UserListNavBar.jsx:125-151 | clicking the direction already chosen reports nothing; the other reports the new criteria |
| UserListNavBar.NavBar.HandleCountryChange | src/components/layout/UserListNavBar.jsx:46-52 | the country changes and the report pairs it with the current town |
| UserListNavBar.NavBar.HandleTownChange | src/components/layout/UserListNavBar.jsx:54-60 | the town changes and the report pairs the current country with it |
| UserListNavBar.EmittedRoundTrip | src/components/layout/UserListNavBar.jsx:15-44 | every criteria the bar can emit is read back as its own field and direction |
| AdminUserList.FilterUsersIsOneFilter | frontend/frontend/src/app/Admin/UserList/page.jsx:69-93 | the chain of search, role and town filters is one filter by the conjunction of the active ones |
| AdminUserList.FilterUsersSpec | frontend/frontend/src/app/Admin/UserList/page.jsx:69-93 | the rows keep the users' order, hold only users every active filter accepts, and every such user |
| AdminUserList.NoFilterKeepsAll | frontend/frontend/src/app/Admin/UserList/page.jsx:69-93 | with nothing typed or selected every user is listed |
| AdminUserList.SortedDistinct | frontend/frontend/src/app/Admin/UserList/page.jsx:96-97 | `[...new Set(values)].sort()`: every value once and nothing else; the defined ones in string order, `null` sorted as the text 'null' and equal texts kept in first-seen order; a missing (`undefined`) value once, last |
| AdminUserList.NullSortsAsText | frontend/frontend/src/app/Admin/UserList/page.jsx:97 | the cities 'paris', `null`, missing, `null` are offered as `null`, 'paris', missing: `null` sorts as 'null' and the missing value goes last |
| AdminUserList.AvailableCountriesSpec | frontend/frontend/src/app/Admin/UserList/page.jsx:96 | every role of some user, `null` and missing included, is offered exactly once, and nothing else is |
| AdminUserList.AvailableTownsSpec | frontend/frontend/src/app/Admin/UserList/page.jsx:97 | every city of some user, `null` and missing included, is offered exactly once, and nothing else is |
| AdminUserList.TownMenuAsWrittenIsEmpty | frontend/frontend/src/app/Admin/UserList/page.jsx:107-113 | as written the town selector renders and offers no town, whatever the users |
| AdminUserList.TownMenuOffersEveryCity | frontend/frontend/src/app/Admin/UserList/page.jsx:97-112 | as intended, when every user has a city the selector offers the users' distinct cities in order, at least one as soon as there is a user; a user whose city is `null` or missing makes the selector throw |
| AdminUserList.UserListPage.constructor | frontend/frontend/src/app/Admin/UserList/page.jsx:14-21 | no users, no error, nothing typed, selected or sorted |
| AdminUserList.UserListPage.FetchUsers | frontend/frontend/src/app/Admin/UserList/page.jsx:27-39 | the list received replaces the users and clears the error; a failure keeps them and sets the load error |
| AdminUserList.UserListPage.HandleDelete | frontend/frontend/src/app/Admin/UserList/page.jsx:41-50 | on success exactly the users with that id go, the others stay in order; on failure nothing changes and the delete error is alerted |
| AdminUserList.UserListPage.HandleFilterChange | frontend/frontend/src/app/Admin/UserList/page.jsx:64-67 | the role and town filters take the values given; nothing else changes |
| AdminUserList.UserListPage.HandleSortChange | frontend/frontend/src/app/Admin/UserList/page.jsx:60-62 | the criteria are recorded and the rows shown do not change, since the page never sorts |
| AdminUserList.UserListPage.HandleSearchChange | frontend/frontend/src/app/Admin/UserList/page.jsx:56-58 | the term is recorded; nothing else changes |
| AdminUserList.DeleteRemovesOnlyThatId | frontend/frontend/src/app/Admin/UserList/page.jsx:44 | removing by id keeps the order, drops every user with that id and keeps every other |
| UserMap.FilteredPoisSpec | frontend/frontend/src/app/User/Map/page.jsx:136-142 | the markers are every POI for 'all', otherwise exactly the POIs of the selected category in order, and the 'filtered' figure counts the others |
| UserMap.AllCategories | frontend/frontend/src/app/User/Map/page.jsx:152-167 | the panel lists the 'all' entry counting every POI, then one entry per category, in order |
| UserMap.SelectingAnEntryShowsItsCount | frontend/frontend/src/app/User/Map/page.jsx:152-167 | selecting a panel entry shows exactly as many markers as the entry announces, unless a category is itself named 'all' |
| UserMap.CategoryEntryCounts | frontend/frontend/src/app/User/Map/page.jsx:160-166 | a category's count never exceeds the 'all' count, and for a named category it equals the per-category count the list pages compute |
| UserMap.DisplayedCategories | frontend/frontend/src/app/User/Map/page.jsx:170-172 | the legend shows every category once expanded, otherwise the first five (or fewer), always a prefix |
| UserMap.MapPage.constructor | frontend/frontend/src/app/User/Map/page.jsx:43-52 | no POIs or categories, 'all' selected, no POI selected, panel and full legend closed |
| UserMap.MapPage.Load | frontend/frontend/src/app/User/Map/page.jsx:110-133 | the categories received (or none), then every POI gathered page by page with one request per page fetched; a failed categories request leaves the lists |
| UserMap.MapPage.HandleReaction | frontend/frontend/src/app/User/Map/page.jsx:55-107 | a missing POI does nothing; otherwise every POI sharing the clicked one's id flips the flag and moves its counter, the selected POI follows, the like or favourite call goes out, and a failure puts the list (only) back |
| UserMap.MapPage.HandleMarkerClick | frontend/frontend/src/app/User/Map/page.jsx:146-149 | the POI is selected and the panel opens |
| UserMap.MapPage.SelectCategory | frontend/frontend/src/app/User/Map/page.jsx:233 | the entry's id becomes the selection |
| UserMap.MapPage.Reset | frontend/frontend/src/app/User/Map/page.jsx:335-338 | back to 'all' with the panel closed, so every POI shows and none is counted as filtered |
| UserMap.MapPage.ToggleLegend | frontend/frontend/src/app/User/Map/page.jsx:314 | the legend switches between five entries and all |
| UserMap.ClickedPoiStaysInList | frontend/frontend/src/app/User/Map/page.jsx:60-67 | after a reaction on a listed POI the updated POI shown in the panel is in the updated list |
| RoutePoiFilter.EmojiFromIcon | src/components/Map/RoutePOIFilter.jsx:20-23 | no icon gives the default pin; otherwise the icon's lower-cased, trimmed name is looked up, falling back to the pin |
| RoutePoiFilter.EmojiNeverEmpty | src/components/Map/RoutePOIFilter.jsx:14-23 | every icon, known or not, yields a non-empty emoji |
| RoutePoiFilter.EmojiIgnoresCaseAndPadding | src/components/Map/RoutePOIFilter.jsx:22 | a known icon name is found whatever the surrounding whitespace |
| RoutePoiFilter.WithEmoji | src/components/Map/RoutePOIFilter.jsx:79 | only the emoji changes: a truthy one is kept, otherwise one is derived, so it is never empty |
| RoutePoiFilter.ComputeDisplayCategories | src/components/Map/RoutePOIFilter.jsx:77-91 | the loop over the POIs with its map of seen ids computes the display categories |
| RoutePoiFilter.DerivedDistinct | src/components/Map/RoutePOIFilter.jsx:81-90 | the categories derived from the POIs have distinct, truthy ids |
| RoutePoiFilter.DerivedIds | src/components/Map/RoutePOIFilter.jsx:81-90 | an id is offered exactly when it is truthy and some POI's category carries it |
| RoutePoiFilter.DerivedFirst | src/components/Map/RoutePOIFilter.jsx:81-90 | each derived entry is the category of the first POI with that id, emoji filled in |
| RoutePoiFilter.GivenCategoriesWin | src/components/Map/RoutePOIFilter.jsx:78-80 | given categories are shown instead, same length and order, each with an emoji |
| RoutePoiFilter.UnsortedIsTheChain | src/components/Map/RoutePOIFilter.jsx:118-134 | the search then category filters are one filter by both conditions |
| RoutePoiFilter.FilteredRoutePoisSpec | src/components/Map/RoutePOIFilter.jsx:118-140 | the list shown holds exactly the POIs both filters keep, in order, except in distance mode where it is a permutation of them, nearest first, POIs at equal distance in their original order |
| RoutePoiFilter.BlankQueryKeepsAll | src/components/Map/RoutePOIFilter.jsx:121 | a query of whitespace only does not filter |
| RoutePoiFilter.PaddedQueryIsNotTrimmed | src/components/Map/RoutePOIFilter.jsx:121-128 | the query is trimmed only to decide whether to search: a trailing space makes a POI found by its bare name disappear |
| RoutePoiFilter.NameOnlyMisses | src/components/Map/RoutePOIFilter.jsx:123-128 | a query longer than every searched field finds nothing |
| RoutePoiFilter.LoaderFor | src/components/Map/RoutePOIFilter.jsx:94-106 | the four known modes each call their loader, the top modes with the limit; any other mode calls nothing |
| RoutePoiFilter.FilterPanel.constructor | src/components/Map/RoutePOIFilter.jsx:70-74 | empty query, distance mode, every category, top 5, filters shown |
| RoutePoiFilter.FilterPanel.HandleSortChange | src/components/Map/RoutePOIFilter.jsx:94-106 | the mode changes and its loader is called with the current limit; distance reloads every POI |
| RoutePoiFilter.FilterPanel.HandleTopLimitChange | src/components/Map/RoutePOIFilter.jsx:109-115 | the limit changes and only a top mode reloads, with the new limit |
| RoutePoiFilter.FilterPanel.SelectCategory | src/components/Map/RoutePOIFilter.jsx:264-281 | the selection changes; 'all' reports null and a category reports its id alone |
| RoutePoiFilter.FilterPanel.SetSearchQuery | src/components/Map/RoutePOIFilter.jsx:172-176 | the query is replaced, by the input or by the clear button; nothing else changes |
| ItineraryCreate.RoundHalfUp | src/app/User/Itineraire/create/page.jsx:215 | the whole number nearest to a non-negative real, halves rounded up, as `toFixed` rounds |
| ItineraryCreate.PaddedDigitsValue | src/app/User/Itineraire/create/page.jsx:215 | the zero-padded digits of a number read back as that number |
| ItineraryCreate.ReadSignedFixed | src/app/User/Itineraire/create/page.jsx:215 | a fixed-point text read back gives its sign and digits |
| ItineraryCreate.ToFixedReadsBack | src/app/User/Itineraire/create/page.jsx:215 | `x.toFixed(f)` reads back as the sign of x and |x| * 10^f rounded to within half a unit |
| ItineraryCreate.MapClick | src/app/User/Itineraire/create/page.jsx:212-231 | the first click places the departure, the second the arrival, a later one appends a numbered free waypoint; the ends already placed stay and the route is cleared |
| ItineraryCreate.TogglePoi | src/app/User/Itineraire/create/page.jsx:203-208 | a POI already among the waypoints is removed (the rest kept in order), otherwise appended as a waypoint |
| ItineraryCreate.WithoutWaypoint | src/app/User/Itineraire/create/page.jsx:291 | removing by id keeps every other waypoint in order and leaves none with that id |
| ItineraryCreate.TogglePoiStep | src/app/User/Itineraire/create/page.jsx:203-210 | the toggle changes only the waypoints and clears the route |
| ItineraryCreate.PoiIds | src/app/User/Itineraire/create/page.jsx:152 | the ids sent are the waypoints' truthy POI ids, at most one per waypoint, none zero |
| ItineraryCreate.PoiIdsAppend | src/app/User/Itineraire/create/page.jsx:152 | the ids of two lists joined are the ids of each, joined |
| ItineraryCreate.PoiIdsMembers | src/app/User/Itineraire/create/page.jsx:152 | an id is sent exactly when it is non-zero and some waypoint carries it |
| ItineraryCreate.PoiIdsAfterAdding | src/app/User/Itineraire/create/page.jsx:152-228 | a clicked waypoint adds no id; a POI waypoint adds its id at the end when truthy |
| ItineraryCreate.RouteRequestFor | src/app/User/Itineraire/create/page.jsx:144-159 | a request exists exactly when both ends are placed, with their coordinates |
| ItineraryCreate.ChosenRoute | src/app/User/Itineraire/create/page.jsx:162 | the custom route when there is one, else the optimal one |
| ItineraryCreate.UserIdOf | src/app/User/Itineraire/create/page.jsx:181 | the first truthy of the stored user's id, userId and user_id, so truthy exactly when one of them is; when none is, user_id as it stands (a 0 or null is sent as is); nothing without a user |
| ItineraryCreate.SavePayload | src/app/User/Itineraire/create/page.jsx:183-192 | the itinerary sent: the name, the ends' labels or their defaults, the waypoints, the geometry, the distance in metres and the duration, and the user's id |
| ItineraryCreate.ClicksAppendWaypoints | src/app/User/Itineraire/create/page.jsx:219-228 | with both ends placed, clicks only append free waypoints numbered on from the list's length, ends untouched |
| ItineraryCreate.ClicksFromEmpty | src/app/User/Itineraire/create/page.jsx:212-231 | from an empty editor the first click is the departure, the second the arrival, and the later ones the waypoints 'Étape 1', 'Étape 2' and so on, with the route cleared |
| ItineraryCreate.ClicksClearRoute | src/app/User/Itineraire/create/page.jsx:230 | any click clears the computed route |
| ItineraryCreate.ToggleTwiceRestores | src/app/User/Itineraire/create/page.jsx:203-208 | toggling a POI that is not a waypoint twice gives the list back |
| ItineraryCreate.ToggleRemovesOnlyThatPoi | src/app/User/Itineraire/create/page.jsx:204-205 | removing a present POI keeps every other waypoint, in order |
| ItineraryCreate.ItineraryEditor.constructor | src/app/User/Itineraire/create/page.jsx:134-142 | no name, no ends, no waypoints, no route, neither saving nor calculating |
| ItineraryCreate.ItineraryEditor.SetName | src/app/User/Itineraire/create/page.jsx:250 | the name changes; nothing else does |
| ItineraryCreate.ItineraryEditor.HandleMapClick | src/app/User/Itineraire/create/page.jsx:212-231 | the editor moves as a map click says |
| ItineraryCreate.ItineraryEditor.TogglePoiWaypoint | src/app/User/Itineraire/create/page.jsx:203-210 | the editor moves as a POI toggle says |
| ItineraryCreate.ItineraryEditor.RemoveWaypoint | src/app/User/Itineraire/create/page.jsx:291 | the waypoint with that id goes and the route is cleared |
| ItineraryCreate.ItineraryEditor.Reset | src/app/User/Itineraire/create/page.jsx:274 | the ends, their labels, the waypoints and the route are cleared; the name stays |
| ItineraryCreate.ItineraryEditor.HandleCalculateRoute | src/app/User/Itineraire/create/page.jsx:144-172 | without both ends an alert and no request; otherwise the request for the ends and POI ids, the chosen route kept when one is found, the right alert otherwise, and calculation over |
| ItineraryCreate.ItineraryEditor.HandleSave | src/app/User/Itineraire/create/page.jsx:174-201 | a missing name or route alerts and sends nothing; otherwise the payload is sent, then success alerts and goes to the itinerary list and failure alerts |
| PoiService.Normalize | frontend/frontend/src/services/poiService.js:67-92 | the content comes from `content`, else `pois`, else the array itself, else is empty; only the first shape announces pages, and the page count is never 0 |
| PoiService.PageParamsSpec | frontend/frontend/src/services/poiService.js:64 | the filters with `page` and `size` (100) added or overriding, and no other key |
| PoiService.GetAllPaginated | frontend/frontend/src/services/poiService.js:53-110 | the loop makes exactly the requests the page count says, page 0 upward with the filters, and returns every POI they brought, in order |
| PoiService.LoadPage | frontend/frontend/src/services/poiService.js:62-105 | a request that threw brings nothing and stops; otherwise its normalised content is added and the loop goes on exactly when the page was full and not the last announced |
| PoiService.FetchCountSpec | frontend/frontend/src/services/poiService.js:61-105 | no request when the page limit is not positive, otherwise between one and the limit; each request but the last was a full page with more announced, and below the limit the last one failed or ended the listing |
| PoiService.FailureStops | frontend/frontend/src/services/poiService.js:102-105 | a request that throws is the last one made |
| PoiService.AtMostMaxPages | frontend/frontend/src/services/poiService.js:61 | never more requests than the page limit |
| PoiService.GatheredPrefix | frontend/frontend/src/services/poiService.js:94 | the POIs gathered only grow, page after page |
| PoiService.SinglePageShapes | frontend/frontend/src/services/poiService.js:80-91 | a response without a `content` array ends the loop |
| PoiService.InAreaParams | frontend/frontend/src/services/poiService.js:27-33 | the four bounds, and the categories only when there are some |
| PoiService.InAreaCategoriesRoundTrip | frontend/frontend/src/services/poiService.js:30 | the joined categories split back on ',' into the list given, when no name holds a comma |
| PoiService.NearbyParams | frontend/frontend/src/services/poiService.js:36-40 | the point, the radius (10 km by default) and the category only when truthy |
| PoiService.SearchParams | frontend/frontend/src/services/poiService.js:22-24 | the query and the size (50 by default), nothing else |
| PoiService.TopParams | frontend/frontend/src/services/poiService.js:118-149 | the limit (5 by default), plus the four bounds exactly when bounds are given |
| Common.SplitJoin | frontend/frontend/src/services/poiService.js:30 | splitting on a separator what was joined with it gives the parts back when none holds the separator |
| Common.TrimPadded | src/components/Map/RoutePOIFilter.jsx:22 | `trim` removes exactly the whitespace around a text that neither starts nor ends with whitespace |
| Lists.FilterSpec | frontend/frontend/src/app/Admin/PoIList/page.jsx:121-147 | `Array.prototype.filter` keeps, in order, exactly the elements the predicate accepts |

## Left out

- HTTP: every service call is an outcome passed in (`Fetched`, a success flag or a response), so request timing, retries and the wrappers over axios are not modelled.
- Concurrency: each handler runs to completion before the next. A late response overwriting a newer optimistic update is not modelled, and neither is a double submit while a request is pending.
- Browser storage and navigation: `localStorage` is the `BrowserStorage` map, and a redirect is a returned path. The session plumbing of the authentication service and context is not part of this model.
- Rendering: Leaflet maps, markers, clustering, `fitBounds` and `setView` are not modelled; only the decision of what to show is.
- Timers and polling: the notification context's polling interval is not modelled. The half-second `setTimeout` of the planning import is the separate `ImportPlanning.ImportPage.DownloadTimerFires` step, whose race with a second download is not modelled.
- Clocks: `Date.now()` in the itinerary editor is a parameter, and `timeAgo` takes the elapsed seconds instead of reading the clock.
- `formatDate`, `formatDateTime`, `isValidDate` and `formatDistance` are left out: they are locale-dependent date and float formatting. `timeAgo` takes the date text `formatDate` would print as a parameter.
- Numbers are `int` or `real`; IEEE-754 rounding, infinities and `-0` are not modelled. `NaN` from `parseFloat` is `None`.
- ItineraryCreate.ToFixed: rounds the exact real half-up, where JavaScript rounds the nearest binary double, so labels of values that have no exact binary form may differ in the last digit.
- Polyline.SplitDecimal: reads `b` through its plain decimal digits. JavaScript prints a `b` of 10^21 or more, or strictly between 0 and 10^-6, in exponent form, and `parseFloat` then reads that exponent: `[3, 1e21, 11, 5]` gives 3.1e21 in JavaScript and 3.1 in the model.
- Polyline.DecodePolyline: covers the subset of JSON made of a top-level array of numbers and arrays of numbers. Deeper nesting, strings, objects and the literals `true`, `false` and `null` read as a parse failure, where JavaScript would pass them through.
- Case mapping (`toLowerCase`, `toUpperCase`) is ASCII-only. Strings are sequences of characters, not of UTF-16 code units, so `.length` differs for characters outside the Basic Multilingual Plane.
- String order: the sort comparators use plain lexicographic order on characters, as `<` and `localeCompare` without locale data would.
- CreatePoi: records keep keys in insertion order. JavaScript's hoisting of integer-like keys to the front of an object is not modelled; the form has no such key.
- CreatePoi: the place's latitude and longitude are kept as the text the place search returns. Their conversion to numbers by the backend is not part of this model.
- CreatePoi.PoiForm.Submit: the submitting flag and the button it disables are not modelled.
- Inscription.SignUpPage.HandlePhotoChange: sets the preview at once, where `FileReader` sets it asynchronously.
- Inscription.SignUpPage.HandleSubmit: models the corrected handler, which sends the photo as its data URL; the handler as written is `Inscription.SubmitStepAsWritten` (see Findings). It also takes the stored user's role as given. The generic error raised when no user was stored, and reading its role throws, is not modelled.
- AdminPoiList: the catalogue's date sort compares date strings with the number 0 for undated POIs. JavaScript finds such a pair neither smaller nor larger, so its comparator is inconsistent and the resulting order depends on the engine. The model places undated POIs first, a consistent order that agrees with every comparison JavaScript does decide.
- AdminUserList.UserListPage.FetchUsers: takes the user list already extracted. The `response.data || response` fallback is not modelled.
- RoutePoiFilter.InSelection: compares the category id with `==` on optional integers. JavaScript's loose `==` agrees on numbers and on `undefined`/`null`, which is all the page stores.
- InteractiveMap.Center: a render that throws (a first segment without a start point) is `None`; what React then shows is not modelled.
- `Formatters.TripStatusLookups`, `Formatters.MemberRoleLookups`, `SideBar.MenuFor`, `RoutePoiFilter.EmojiFromIcon` and `Pois.CategoryCountsSpec`: treat an inherited property name such as 'constructor' as an absent key, where the JavaScript object lookup (or the `counts[name] || 0` of the category counter) would find the prototype's member.
- ImportPlanning: the message shown when the server offers no planning is rendering and is not modelled.
- Static and forwarding pages, layouts, the header and the other service wrappers are outside this model.

## Findings

| source | as written | input that shows it | evidently intended | confidence | as-written member | corrected member |
|---|---|---|---|---|---|---|
| frontend/frontend/src/app/Admin/UserList/page.jsx:112 | the page hands its towns to the nav bar as `availableTypes`, a prop the nav bar does not read, so the nav bar's `availableTowns` is undefined | any list of users, e.g. one user whose city is 'Douala': the town selector offers no town | pass `availableTowns={availableTowns}`, so that the selector offers the users' distinct cities when every user has one; a user without a city then makes the page throw on `town.charAt` | not executed | AdminUserList.TownMenuAsWrittenIsEmpty | AdminUserList.TownMenuOffersEveryCity |
| frontend/frontend/src/app/Inscription/page.jsx:77 | a chosen photo is passed to `convertToBase64`, which nothing defines or imports, so the handler throws and shows 'Une erreur est survenue' | a valid form ('alice', matching passwords) with a photo chosen: nothing is sent | send the photo's data URL, as the preview already computes, so every valid form is sent | not executed | Inscription.PhotoCounterexample | Inscription.SubmitStepSpec |
