# FaceSocial authentication core, modelled in Dafny

FaceSocial is a social web application where users register and log in with
a password or with a face image. This project models the parts of it that
decide who is authenticated and what the user sees on the way there.

- **Backend auth controller** (`AuthController`): the duplicate check,
  registration, password login and face login. The user table is a sequence
  of records. Face login is a nested scan over every stored embedding of every
  user, and it keeps the first comparison of highest confidence.
- **Bearer-token middleware** (`AuthMiddleware`): it checks the header,
  extracts the token the way `split(' ')[1]` does, and either lets the request
  through with the decoded payload or answers 401.
- **AI server**:
  - `Preprocess`: face cropping with Python slice semantics.
  - `FaceService`: embeddings, the distance/threshold decision and the quality
    score with its feedback.
  - `FaceRecognitionRoutes`, `FaceDetectionRoute`, `RouteCommon`: the
    `/embeddings`, `/compare`, `/quality` and `/detect` routes, including the
    data-URL stripping of their Base64 images.
- **Client**:
  - `ApiClient`: the request interceptor and the call wrappers.
  - `AuthStore`: the session store.
  - `RegisterStore`: the registration wizard store.
  - `RegisterStepOne`: the first wizard step, covering password strength, the
    e-mail pattern, the form-validity rule, the debounced availability checks
    and submission.
  - `StepIndicator`: the step indicator.
  - `ThemeProvider`: the theme provider.
- **`EndToEnd`**: properties that span client and server.
  - The interceptor's header reaches the middleware with exactly the stored
    token.
  - A token issued at registration authenticates later requests.
  - The client's first-step rule accepts usernames that the server's schema
    rejects.

Code that changes state step by step is written as classes whose methods
update fields. These are the stores, the React component state, the theme
provider, the middleware's request/response pair and the quality-assessment
and detection loops. Each such method is specified by pure functions, and the
lemmas are about those functions. Everything outside the code is a function
parameter:
- the database's answers (the user sequence, the new id);
- bcrypt (`hash`, `matches`);
- JWT (`sign`, `verify`);
- zod's e-mail rule;
- the HTTP calls to the AI service;
- Base64/image decoding, MTCNN detection, the FaceNet network, and the
  brightness and sharpness of a crop;
- the system's dark-mode preference.

Where the design of the system as described and its code disagree, the model follows the code:
- **Failed embedding calls at registration.** As designed, an image whose
  embedding call fails must not cost the others theirs. In the code, the calls
  go through `Promise.all`, so one call that *throws* discards every
  embedding; only embeddings answered with a non-"success" status are dropped
  one by one (`CollectEmbeddings`).
- **Face-login threshold.** As designed, a match is any positive comparison of
  highest confidence. In the code, the running best starts at 0, so a positive
  comparison with confidence 0 or lower never matches (`IsFirstBest`).

## Model

| member | source | states |
|---|---|---|
| AuthController.FindBy | backend/src/controllers/auth.controller.ts:60-66 | the lookup by `username` or `email` finds the first record whose column holds the value, and finds none exactly when no record does |
| AuthController.Clashes | backend/src/controllers/auth.controller.ts:85-92 | the `OR` lookup clashes exactly when the username lookup or the e-mail lookup finds a user |
| AuthController.CheckDuplicate | backend/src/controllers/auth.controller.ts:52-71 | 400 "Invalid parameters" exactly when the field is not `username`/`email` or the value is empty; otherwise 200 echoing the field, with `isDuplicate` true iff some user holds the value in that column |
| AuthController.SchemaIgnoresImages | backend/src/controllers/auth.controller.ts:31-38 | `registerSchema` does not look at the optional face images: a body passes with its images exactly when it passes without them |
| AuthController.Successful | backend/src/controllers/auth.controller.ts:108-129 | the embeddings kept from the calls are at most as many as the images |
| AuthController.SuccessfulLength | backend/src/controllers/auth.controller.ts:120-131 | exactly one embedding is kept per call that answered "success" |
| AuthController.SuccessfulAppend | backend/src/controllers/auth.controller.ts:108-129 | the kept embeddings follow the order of the images: collecting over two batches is collecting over each in turn |
| AuthController.SuccessfulSingle | backend/src/controllers/auth.controller.ts:120-123 | one image gives its embedding when its status is "success", and nothing otherwise |
| AuthController.AnyThrew | backend/src/controllers/auth.controller.ts:108-129 | `Promise.all` rejects when the first call throws or one of the rest does, and never for no images |
| AuthController.SuccessCount | backend/src/controllers/auth.controller.ts:120-131 | at most one success per image, and none exactly when no answer is "success" |
| AuthController.CollectEmbeddings | backend/src/controllers/auth.controller.ts:104-138 | stored embeddings exist iff images were sent, no call threw and at least one answered "success"; they are then the successful answers, in order, and never empty |
| AuthController.FirstClash | backend/src/controllers/auth.controller.ts:85-92 | the `OR` lookup finds a record iff some user has the username or the e-mail |
| AuthController.Register | backend/src/controllers/auth.controller.ts:79-176 | a body failing the schema gives 400 "Invalid input data" and leaves the table unchanged; a clash gives 400 "Username or email already exists" and leaves it unchanged; otherwise exactly one record is appended (hashed password, embeddings as collected) and the 201 answer carries a token signed over the new id and username, with `hasFaceRecognition` iff embeddings were stored |
| AuthController.RegisterKeepsUsersUnique | backend/src/controllers/auth.controller.ts:85-150 | registration keeps usernames, e-mail addresses and ids pairwise distinct |
| AuthController.Login | backend/src/controllers/auth.controller.ts:184-222 | 200 exactly when the first user with the username exists and the password matches its hash, answering with that user's token and view; every other outcome is the same 401 "Invalid credentials" |
| AuthController.RegisterThenLogin | backend/src/controllers/auth.controller.ts:141-213 | a user who has just registered logs in with the same password and gets a token signed over the same payload (the new id and username) and the same user view |
| AuthController.ScanForMatch | backend/src/controllers/auth.controller.ts:283-321 | the nested scan ends with the first comparison of highest positive confidence, or with no match when no positive comparison rose above 0; a failed comparison is skipped |
| AuthController.IsFirstBest | backend/src/controllers/auth.controller.ts:283-321 | the scan's outcome: a user is matched exactly when the best positive confidence is above the starting 0 |
| AuthController.NextUser | backend/src/controllers/auth.controller.ts:286-320 | after all stored embeddings of one user, the scan's invariant holds at the start of the next user |
| AuthController.FirstBestUnique | backend/src/controllers/auth.controller.ts:309-314 | the scan's outcome (matched user and highest confidence) is determined by the answers alone |
| AuthController.FaceLogin | backend/src/controllers/auth.controller.ts:237-344 | a thrown embedding call gives 500, a non-"success" one gives 400; otherwise 401 "Face not recognized" iff no comparison matched, else 200 with the token and view of the user the scan selects |
| AuthController.HighestOfThreeWins | backend/src/controllers/auth.controller.ts:309-314 | positive matches at 0.72, 0.91 and 0.80 select the user with 0.91 |
| AuthController.EarlierTieWins | backend/src/controllers/auth.controller.ts:311-313 | of two equal confidences, the earlier comparison keeps the match |
| AuthController.FailedImageMeansNoFaceRecognition | backend/src/controllers/auth.controller.ts:104-167 | a user registered with one image whose embedding call fails is stored without embeddings and answered with `hasFaceRecognition` false |
| AuthController.MatchOnSecondEmbedding | backend/src/controllers/auth.controller.ts:286-314 | a positive answer at 0.95 for the second stored embedding of the only user with embeddings selects that user |
| AuthController.AllComparisonsFailMeansNoMatch | backend/src/controllers/auth.controller.ts:316-325 | when every comparison throws, the only possible outcome is no match |
| AuthMiddleware.BearerToken | backend/src/middleware/auth.ts:22 | the token is the run of non-space characters right after "Bearer ", ending at the next space or at the end |
| AuthMiddleware.SecondSegmentOnly | backend/src/middleware/auth.ts:22 | "Bearer a b" yields "a" |
| AuthMiddleware.BearerTokenOf | backend/src/middleware/auth.ts:17-22 | a token without spaces is recovered exactly from "Bearer " + token |
| AuthMiddleware.Decide | backend/src/middleware/auth.ts:13-31 | "Authentication required" iff the header is missing, empty or lacks the prefix; "Invalid or expired token" iff verification of the extracted token fails; otherwise the request proceeds with the verified payload |
| AuthMiddleware.Exchange.Authenticate | backend/src/middleware/auth.ts:13-31 | a rejection sends its 401 and neither sets `req.user` nor calls `next`; acceptance sets `req.user` to the payload, calls `next` once and sends nothing |
| AuthMiddleware.Exchange.constructor | backend/src/middleware/auth.ts:8 | a request starts without a user, with no calls of `next` and no response |
| ApiClient.CallApi | frontend/src/lib/api.ts:62-113 | every wrapper, `checkDuplicate` included, returns the response data or rethrows the same error |
| ApiClient.AuthorizationHeader | frontend/src/lib/api.ts:16-22 | a header is set iff a non-empty token is stored, and it is "Bearer " + token |
| Strings.StartsWith | backend/src/middleware/auth.ts:17 | `startsWith`: the string is the prefix followed by the rest of it |
| AuthStore.ErrorText | frontend/stores/authStore.ts:41 | the server's message when it is present and non-empty, else the action's fallback text, so never empty |
| AuthStore.FailureMessageNonEmpty | frontend/stores/authStore.ts:39-44 | the error text of every failed action is non-empty |
| AuthStore.AuthStore.Persist | frontend/stores/authStore.ts:100-104 | only user, token and the authenticated flag are persisted |
| AuthStore.AuthStore.constructor | frontend/stores/authStore.ts:22-26 | the store starts logged out, not loading, without error |
| AuthStore.AuthStore.Begin | frontend/stores/authStore.ts:30 | an action starts loading, clears the error and leaves the persisted session alone |
| AuthStore.AuthStore.Settle | frontend/stores/authStore.ts:31-45 | success installs the response's user and token and marks the store authenticated; failure records the error text, keeps the persisted session and rethrows; loading ends either way |
| AuthStore.AuthStore.Login | frontend/stores/authStore.ts:29-46 | password login: on success the session comes from the response with no error; on failure the login fallback text is used and the error is rethrown with the session untouched (the copy of the store in frontend/src/lib/api.ts, lines 144-161, is the same) |
| AuthStore.AuthStore.FaceLogin | frontend/stores/authStore.ts:49-66 | as login, with the face-login fallback text (the copy in frontend/src/lib/api.ts, lines 164-181, is the same) |
| AuthStore.AuthStore.Register | frontend/stores/authStore.ts:69-86 | as login, with the registration fallback text (the copy in frontend/src/lib/api.ts, lines 184-201, is the same) |
| AuthStore.AuthStore.Logout | frontend/stores/authStore.ts:89-96 | logout clears user, token, the flag and the error, and keeps `isLoading` (the copy in frontend/src/lib/api.ts, lines 204-211, is the same) |
| RegisterStore.Get | frontend/stores/registerStore.ts:5-22 | every form field has a value of its declared type |
| RegisterStore.SameFieldsSameForm | frontend/stores/registerStore.ts:5-22 | two forms that agree on every field are equal |
| RegisterStore.SetField | frontend/stores/registerStore.ts:77-82 | the given field takes the value and every other field is unchanged |
| RegisterStore.FitsForm | frontend/stores/registerStore.ts:37 | a `Partial<RegisterFormData>`: the empty update fits, and every key of a fitting update holds a value of its type |
| RegisterStore.Pick | frontend/stores/registerStore.ts:84-89 | the value a spread leaves at a key has that key's type, and is the old one for a key the update leaves out |
| RegisterStore.SetFields | frontend/stores/registerStore.ts:84-89 | every given field takes its value and every other field is unchanged |
| RegisterStore.SetFieldsOfOne | frontend/stores/registerStore.ts:77-89 | setting one field through `setFormFields` is `setFormField` |
| RegisterStore.SetFieldsIdempotent | frontend/stores/registerStore.ts:84-89 | applying the same fields twice is applying them once, and no fields change nothing |
| RegisterStore.NextStep | frontend/stores/registerStore.ts:91-96 | the step goes up by one and nothing else changes |
| RegisterStore.PrevStep | frontend/stores/registerStore.ts:98-103 | the step goes down by one but never below 1, and nothing else changes |
| RegisterStore.PrevUndoesNext | frontend/stores/registerStore.ts:91-103 | going back after going forward restores the form from any step of at least 1 |
| RegisterStore.RemoveIndex | frontend/stores/registerStore.ts:115 | the filter drops exactly the element at an index in range, and drops nothing for any other index |
| RegisterStore.AddFaceImage | frontend/stores/registerStore.ts:105-110 | the image is appended after the existing ones and nothing else changes |
| RegisterStore.RemoveFaceImage | frontend/stores/registerStore.ts:112-117 | the image at an index in range is removed, other indexes leave the form as it was, and no other field changes |
| RegisterStore.RemoveUndoesAdd | frontend/stores/registerStore.ts:105-117 | removing the image just added restores the form |
| RegisterStore.RegisterStore.Persist | frontend/stores/registerStore.ts:146 | only the form data is persisted |
| RegisterStore.RegisterStore.CheckFlags | frontend/stores/registerStore.ts:30-33 | the four duplicate-check flags, each read from its field |
| RegisterStore.RegisterStore.constructor | frontend/stores/registerStore.ts:53-74 | the store starts with the initial form at step 1 and no check in progress or known |
| RegisterStore.RegisterStore.SetFormField | frontend/stores/registerStore.ts:77-82 | the form becomes the one with that field set; the check flags are kept |
| RegisterStore.RegisterStore.SetFormFields | frontend/stores/registerStore.ts:84-89 | the form becomes the one with those fields set; the check flags are kept |
| RegisterStore.RegisterStore.NextStepAction | frontend/stores/registerStore.ts:91-96 | the form moves one step on; the check flags are kept |
| RegisterStore.RegisterStore.PrevStepAction | frontend/stores/registerStore.ts:98-103 | the form moves one step back, not below 1; the check flags are kept |
| RegisterStore.RegisterStore.AddFaceImageAction | frontend/stores/registerStore.ts:105-110 | the image is appended to the form; the check flags are kept |
| RegisterStore.RegisterStore.RemoveFaceImageAction | frontend/stores/registerStore.ts:112-117 | the image at the index is removed from the form; the check flags are kept |
| RegisterStore.RegisterStore.ClearForm | frontend/stores/registerStore.ts:119-125 | the form and all four check flags return to their initial values |
| RegisterStore.RegisterStore.SetFirstStepValid | frontend/stores/registerStore.ts:127-132 | only the `isFirstStepValid` field changes |
| RegisterStore.RegisterStore.SetUsernameCheckStatus | frontend/stores/registerStore.ts:134-137 | only the username flags change; the form and the e-mail flags are kept |
| RegisterStore.RegisterStore.SetEmailCheckStatus | frontend/stores/registerStore.ts:139-142 | only the e-mail flags change; the form and the username flags are kept |
| RegisterStepOne.Criteria | frontend/components/register/RegisterStepOne.tsx:80-84 | a password is judged on exactly five criteria |
| RegisterStepOne.CountTrue | frontend/components/register/RegisterStepOne.tsx:86 | no more criteria are counted than there are |
| RegisterStepOne.CountTrueAll | frontend/components/register/RegisterStepOne.tsx:86 | the count reaches the number of criteria iff every criterion holds |
| RegisterStepOne.Score | frontend/components/register/RegisterStepOne.tsx:86 | the score is at most 5 |
| RegisterStepOne.PasswordStrength | frontend/components/register/RegisterStepOne.tsx:74-91 | no strength iff the password is empty; weak iff the score is at most 2, medium iff it is 3 or 4, strong iff it is 5 |
| RegisterStepOne.StrongMeansAllCriteria | frontend/components/register/RegisterStepOne.tsx:80-90 | a password is strong iff it has a lower-case letter, an upper-case letter, a digit and a special character, and at least 8 characters |
| RegisterStepOne.EmailMatches | frontend/components/register/RegisterStepOne.tsx:99 | an address of the pattern has at least five characters and neither starts nor ends with '@' |
| RegisterStepOne.EmailHasOneAt | frontend/components/register/RegisterStepOne.tsx:99 | an address matching the pattern contains exactly one '@' |
| RegisterStepOne.PasswordMatch | frontend/components/register/RegisterStepOne.tsx:126-132 | the match flag is unknown iff both fields are empty, true iff they are equal and not both empty, false iff they differ |
| RegisterStepOne.FormIsValid | frontend/components/register/RegisterStepOne.tsx:94-111 | a valid form passes the username check's guard, shows a matching confirmation and shows a strength for its password |
| RegisterStepOne.ValidFormPassedGuards | frontend/components/register/RegisterStepOne.tsx:94-111 | a valid form's username and e-mail pass the guards of their availability checks, and its match flag shows true |
| RegisterStepOne.UnknownAvailabilityBlocks | frontend/components/register/RegisterStepOne.tsx:109-110 | while either availability is unknown the form cannot be valid |
| RegisterStepOne.Availability | frontend/components/register/RegisterStepOne.tsx:47-54 | a finished check records availability iff the lookup succeeded, and records it available iff the value was not a duplicate |
| RegisterStepOne.StepOne.constructor | frontend/components/register/RegisterStepOne.tsx:32-38 | the component starts with an empty confirmation, unknown match and strength, not submitted and not valid |
| RegisterStepOne.StepOne.ValidateForm | frontend/components/register/RegisterStepOne.tsx:94-116 | the result is the validity rule on the current form, confirmation and availabilities, and it is written to the ref and to the store's `isFirstStepValid` and to nothing else |
| RegisterStepOne.StepOne.HandleSubmit | frontend/components/register/RegisterStepOne.tsx:150-157 | submitting marks the form submitted and advances the wizard by exactly one step iff the form is valid; the confirmation, the match and the strength stay as they were |
| RegisterStepOne.StepOne.RevalidateEffect | frontend/components/register/RegisterStepOne.tsx:119-123 | once submitted, every change re-runs the validity rule; before that the form and the validity stay; the confirmation, the match, the strength and the submitted flag never change |
| RegisterStepOne.StepOne.SetPasswordConfirm | frontend/components/register/RegisterStepOne.tsx:361 | only the confirmation changes |
| RegisterStepOne.StepOne.PasswordMatchEffect | frontend/components/register/RegisterStepOne.tsx:126-132 | the match flag becomes the tri-state comparison of password and confirmation |
| RegisterStepOne.StepOne.StrengthEffect | frontend/components/register/RegisterStepOne.tsx:135-137 | the strength shown is the strength of the current password |
| RegisterStepOne.StepOne.BeginUsernameCheck | frontend/components/register/RegisterStepOne.tsx:41-48 | a lookup is made iff the username has at least 3 characters; the availability becomes unknown either way, and only the username flags change |
| RegisterStepOne.StepOne.EndUsernameCheck | frontend/components/register/RegisterStepOne.tsx:49-54 | the check ends with the lookup's answer, or unknown after an error |
| RegisterStepOne.StepOne.BeginEmailCheck | frontend/components/register/RegisterStepOne.tsx:57-64 | a lookup is made iff the address contains '@'; the availability becomes unknown either way, and only the e-mail flags change |
| RegisterStepOne.StepOne.EndEmailCheck | frontend/components/register/RegisterStepOne.tsx:65-70 | the check ends with the lookup's answer, or unknown after an error |
| StepIndicator.ViewOf | frontend/components/register/StepIndicator.tsx:20-24 | a step's view keeps its number |
| StepIndicator.Views | frontend/components/register/StepIndicator.tsx:10-24 | one view per step, in order |
| StepIndicator.StatusOfStep | frontend/components/register/StepIndicator.tsx:22-23 | step i is active iff it is the current step and completed iff the current step is past it, never both |
| StepIndicator.AtMostOneActive | frontend/components/register/StepIndicator.tsx:22 | at most one step is active, and only when the current step is 1 to 3 |
| StepIndicator.NoneActiveOutside | frontend/components/register/StepIndicator.tsx:22 | a current step outside 1..3 activates no step |
| StepIndicator.CompletedPrefix | frontend/components/register/StepIndicator.tsx:23 | completed steps form a prefix and every step before the active one is completed; their number is the current step minus one, clamped to 0..3 |
| StepIndicator.CompletedCount | frontend/components/register/StepIndicator.tsx:23 | at most one completed step per step, and the count is the number of steps exactly when all are completed |
| StepIndicator.Connectors | frontend/components/register/StepIndicator.tsx:54-58 | every step but the last has a connector, green iff that step is completed |
| StepIndicator.CircleOfStep | frontend/components/register/StepIndicator.tsx:32-48 | the circle is active-styled iff the step is current and completed-styled iff it is past; the check mark shows iff completed; the title is highlighted iff the step is current or past |
| ThemeProvider.ResolveTheme | frontend/components/common/ThemeProvider.tsx:26-35 | a non-empty saved theme wins, then a dark system preference, otherwise the theme stays |
| ThemeProvider.ResolveFromLight | frontend/components/common/ThemeProvider.tsx:23-35 | from the initial light theme, the result is dark iff dark was saved, or nothing was saved and the system prefers dark |
| ThemeProvider.Toggled | frontend/components/common/ThemeProvider.tsx:53-55 | toggling gives dark iff the theme is light |
| ThemeProvider.ToggleTwice | frontend/components/common/ThemeProvider.tsx:54 | toggling twice restores light and dark, and makes any other saved value dark |
| ThemeProvider.UseTheme | frontend/components/common/ThemeProvider.tsx:14-20 | the hook throws its message iff there is no provider, and otherwise gives the provider's context |
| ThemeProvider.ThemeProvider.constructor | frontend/components/common/ThemeProvider.tsx:23-24 | the provider starts light and unmounted |
| ThemeProvider.ThemeProvider.Render | frontend/components/common/ThemeProvider.tsx:58-66 | children are hidden iff not mounted, and otherwise receive the current theme |
| ThemeProvider.ThemeProvider.Saved | frontend/components/common/ThemeProvider.tsx:28 | `localStorage.getItem('theme')`: null exactly when nothing is stored under the key, else the stored value |
| ThemeProvider.ThemeProvider.MountEffect | frontend/components/common/ThemeProvider.tsx:26-38 | mounting picks the theme from storage and preference and marks the provider mounted, touching neither the document nor storage |
| ThemeProvider.ThemeProvider.SyncEffect | frontend/components/common/ThemeProvider.tsx:40-51 | once mounted, the document has the 'dark' class iff the theme is dark, keeps its other classes and stores the theme; before mounting nothing changes |
| ThemeProvider.ThemeProvider.ToggleTheme | frontend/components/common/ThemeProvider.tsx:53-55 | only the theme changes, to its toggle |
| ThemeProvider.MountFresh | frontend/components/common/ThemeProvider.tsx:26-51 | with nothing saved, the mounted page is dark iff the system prefers dark, and exactly that theme is stored |
| Preprocess.CropBounds | ai-server/src/utils/preprocess.py:47-50 | the crop edges are the margin-widened box clamped to the image: left and top at least 0, right and bottom at most the image's size |
| Preprocess.CropBoundsInside | ai-server/src/utils/preprocess.py:47-50 | a widened box inside the image is not clamped |
| Preprocess.PyBound | ai-server/src/utils/preprocess.py:53 | a slice bound is clamped to the length, and a negative one counts from the end |
| Preprocess.PySlice | ai-server/src/utils/preprocess.py:53 | a slice's length is the distance between its normalised bounds, or 0 |
| Preprocess.Crop | ai-server/src/utils/preprocess.py:53 | the crop's width is the distance between the normalised column bounds |
| Preprocess.CropRectangular | ai-server/src/utils/preprocess.py:53 | cropping a rectangular image gives a rectangular image |
| Preprocess.CropInRange | ai-server/src/utils/preprocess.py:53 | with bounds inside the image, the crop is exactly those rows and columns |
| Preprocess.ExtractFaceAsWritten | ai-server/src/utils/preprocess.py:42-55 | `extract_face` as written: even when it wraps around, the crop is never larger than the image |
| Preprocess.ExtractFace | ai-server/src/utils/preprocess.py:42-55 | the corrected crop: its height and width are the overlaps of the widened box with the image |
| Preprocess.ExtractFaceIsIntersection | ai-server/src/utils/preprocess.py:42-55 | the corrected crop is rectangular and is exactly the intersection of the widened box with the image, row by row |
| Preprocess.OffImageIsEmpty | ai-server/src/utils/preprocess.py:47-53 | with the corrected crop, a widened box wholly outside the image gives an empty crop (the code as written wraps around instead; see Findings) |
| Preprocess.AsWrittenAgrees | ai-server/src/utils/preprocess.py:49-53 | whenever the widened box's right and bottom edges are not negative, the code as written and the corrected crop agree |
| Preprocess.AsWrittenWrapsAround | ai-server/src/utils/preprocess.py:49-53 | a box left of the image gives a 95-column crop as written, where the intended crop is empty |
| FaceService.GetEmbeddings | ai-server/src/services/face_recognition.py:38-63 | no face gives no embedding; otherwise the network's embedding, or its exception |
| FaceService.CompareFaces | ai-server/src/services/face_recognition.py:65-87 | a missing embedding gives "different" at distance 1.0; otherwise the distance is reported and the pair is the same iff it is strictly below the threshold |
| FaceService.ThresholdMonotone | ai-server/src/services/face_recognition.py:85 | a same-person decision survives a larger threshold, and a distance equal to the threshold is never the same person |
| FaceService.Clamp100 | ai-server/src/services/face_recognition.py:108 | a component score lies in [0, 100] and values already in range are kept |
| FaceService.BrightnessScore | ai-server/src/services/face_recognition.py:107-108 | a score in [0, 100], proportional to the mean brightness up to 128 and 100 from there on |
| FaceService.SharpnessScore | ai-server/src/services/face_recognition.py:115-118 | a score in [0, 100], proportional to the Laplacian's variance up to 500 and 100 from there on |
| FaceService.QualityScore | ai-server/src/services/face_recognition.py:106-123 | the average of the two clamped component scores lies in [0, 100] |
| FaceService.Feedback | ai-server/src/services/face_recognition.py:103-127 | "too dark" iff brightness < 50, "too bright" iff > 200, "blurry" iff sharpness < 100, never both dark and bright, and the good-quality message alone iff none of these |
| FaceService.QualityAssessment | ai-server/src/services/face_recognition.py:89-129 | no face gives 0 and its message; otherwise the score is the average of the component scores and the feedback the messages joined with ", "; the score lies in [0, 100] and the text is never empty |
| FaceService.JoinNonEmpty | ai-server/src/services/face_recognition.py:129 | joining messages whose first one is non-empty gives a non-empty text |
| Strings.Join | ai-server/src/services/face_recognition.py:129 | `", ".join`: no parts give the empty text; otherwise the text is at least as long as the first part plus one separator between each two parts |
| Strings.JoinFirstPart | ai-server/src/services/face_recognition.py:129 | a join starts with its first part; with more parts, the separator follows it and the rest of the text is the join of the remaining parts |
| RouteCommon.StripPrefix | ai-server/src/routes/face_recognition.py:32 | a value without a comma is kept, and the result never contains a comma |
| RouteCommon.StripBetweenCommas | ai-server/src/routes/face_recognition.py:32 | with a comma, the result is the text between the first comma and the next comma or the end |
| RouteCommon.StripDataUrl | ai-server/src/routes/face_recognition.py:32 | "data:image/jpeg;base64," + payload gives back the payload |
| RouteCommon.DecodeField | ai-server/src/routes/face_recognition.py:31-37 | a non-string image value raises; a string is stripped and then decoded |
| FaceDetectionRoute.ResultOf | ai-server/src/routes/face_detection.py:40-57 | a face's record keeps its box and confidence and exactly the five landmarks, taken from its keypoints |
| FaceDetectionRoute.Results | ai-server/src/routes/face_detection.py:38-57 | one record per detected face, in detection order |
| FaceDetectionRoute.Detect | ai-server/src/routes/face_detection.py:11-66 | 400 without an image key or for an undecodable image; 500 when decoding, detection or a landmark lookup raises; otherwise 200 with every face's record and their count |
| FaceRecognitionRoutes.BestIndex | ai-server/src/routes/face_recognition.py:52 | the chosen face has the greatest confidence, and every face before it has strictly less |
| FaceRecognitionRoutes.DetectOn | ai-server/src/routes/face_recognition.py:109 | detection on an undecodable image raises |
| FaceRecognitionRoutes.Embeddings | ai-server/src/routes/face_recognition.py:18-74 | `/embeddings` answers 200 with an embedding and a score in [0, 100], 400 with one of the three request errors, or the exception's 500 |
| FaceRecognitionRoutes.Quality | ai-server/src/routes/face_recognition.py:147-199 | `/quality` answers 200 with a score in [0, 100], 400 with one of the three request errors, or the exception's 500; `QualityRejects` and `QualityDescribesBestFace` pin down the 400 and the 200 answers |
| FaceRecognitionRoutes.Compare | ai-server/src/routes/face_recognition.py:76-145 | `/compare` answers 200 with a comparison, 400 with one of its three errors, or the exception's 500 |
| FaceRecognitionRoutes.Numeric | ai-server/src/services/face_recognition.py:85 | what `dist < threshold` and `bool` accept: a number or a boolean as itself; null, a string, an object or a list of other than one element raises |
| FaceRecognitionRoutes.NumericOfNested | ai-server/src/routes/face_recognition.py:134-137 | a number or a boolean inside any number of one-element lists is compared as itself (numpy broadcasting) |
| FaceRecognitionRoutes.NumericIsNested | ai-server/src/routes/face_recognition.py:134-137 | every threshold that can be compared is a number or a boolean inside one-element lists |
| FaceRecognitionRoutes.ThresholdOf | ai-server/src/routes/face_recognition.py:131 | `data.get('threshold', 0.7)`: the request's threshold, or 0.7 when it has none |
| FaceRecognitionRoutes.Decide | ai-server/src/routes/face_recognition.py:129-142 | never a 400; a 200 exactly when the distance is computed and the threshold can be compared, carrying the strict decision, 1 - distance and the echoed threshold |
| FaceRecognitionRoutes.EmbeddingsRejects | ai-server/src/routes/face_recognition.py:18-74 | `/embeddings` answers 400 exactly for a missing image key, an undecodable image or no face, each with its own body; anything else is 200 or 500 |
| FaceRecognitionRoutes.QualityRejects | ai-server/src/routes/face_recognition.py:147-199 | `/quality` answers 400 exactly for a missing image key, an undecodable image or no face, with the same bodies as `/embeddings`; anything else is 200 or 500 |
| FaceRecognitionRoutes.EmbeddingsDescribeBestFace | ai-server/src/routes/face_recognition.py:51-71 | a successful `/embeddings` answer describes the first face of highest confidence: its box, the network's embedding of its crop, and the score and feedback that `quality_assessment` gives for the stats of that same crop; the score lies in [0, 100] and the feedback is non-empty |
| FaceRecognitionRoutes.QualityDescribesBestFace | ai-server/src/routes/face_recognition.py:181-195 | a successful `/quality` answer carries the box of the first face of highest confidence, and the score and feedback that `quality_assessment` gives for the stats of that face's crop |
| FaceRecognitionRoutes.CompareDispatch | ai-server/src/routes/face_recognition.py:87-127 | two embeddings are never rejected with 400 and make the image fields irrelevant; without two embeddings or two images the answer is 400 |
| FaceRecognitionRoutes.CompareImagePath | ai-server/src/routes/face_recognition.py:92-120 | with images, no face in the first image is reported before anything about the second; no face in the second is reported whatever the embedding calls would do; an undecodable image gives 500; these are the only 400s |
| FaceRecognitionRoutes.ComparisonReport | ai-server/src/routes/face_recognition.py:129-142 | a successful comparison reports confidence 1 - distance and same-person iff the distance is below the threshold, and echoes the threshold, which defaults to 0.7 |
| Strings.Split | backend/src/middleware/auth.ts:22 | splitting gives at least one piece, and no piece contains the separator |
| Strings.SplitFirstIsPrefix | backend/src/middleware/auth.ts:22 | the first piece is the prefix before the first separator |
| Strings.SplitCount | backend/src/middleware/auth.ts:22 | `split` gives one more piece than there are separators |
| Strings.JoinSplit | backend/src/middleware/auth.ts:22 | joining the pieces of a split with the separator gives the string back |
| Strings.SplitJoin | ai-server/src/routes/face_recognition.py:32 | splitting the join of separator-free pieces gives the pieces back, so `split` loses nothing |
| Strings.JoinConsFirst | ai-server/src/routes/face_recognition.py:32 | the first character of a join is that of its first part, and the rest is the join with that character removed |
| Strings.SplitAfter | backend/src/middleware/auth.ts:22 | splitting `a`, a separator and `b`, where `a` holds no separator, gives `a` followed by the pieces of `b` |
| Strings.SplitNoSeparator | ai-server/src/routes/face_recognition.py:32 | a string without the separator is one piece, itself |
| Strings.SplitHasTwo | ai-server/src/routes/face_recognition.py:32 | a string holding the separator splits into at least two pieces, so `[1]` exists |
| EndToEnd.InterceptorHeaderRoundTrip | frontend/src/lib/api.ts:16-22 | the interceptor's header for a stored token without spaces reaches verification with exactly that token; no stored or empty token is rejected as "Authentication required" |
| EndToEnd.RegisteredTokenAuthenticates | backend/src/controllers/auth.controller.ts:153-160 | the token returned at registration, sent back through the interceptor, authenticates as the new user's id and username |
| EndToEnd.BodyOf | backend/src/controllers/auth.controller.ts:31-38 | an assumed body for a wizard form: the text fields are copied, and sending no image list collects the same embeddings as sending an empty one |
| EndToEnd.ClientValidityAgainstSchema | backend/src/controllers/auth.controller.ts:31-38 | a first step the client accepts passes the server's schema iff the username has at most 30 characters |
| EndToEnd.LongNameFormEmail | frontend/components/register/RegisterStepOne.tsx:99 | "a@b.co" matches the client's e-mail pattern |
| EndToEnd.LongUsernamePassesClientOnly | backend/src/controllers/auth.controller.ts:32 | a form with a 31-character username that the client accepts is rejected by the server as invalid input |

## Left out

- Everything outside the code is a parameter and is not modelled:
  - I/O and the database driver;
  - bcrypt, JWT signing and verification (including expiry);
  - zod's e-mail rule;
  - HTTP, Base64 and image decoding;
  - MTCNN, FaceNet, and OpenCV/numpy image statistics;
  - `window.matchMedia`.
- The database's own failures, and the catch-all 500 "Server error" answers
  of the controller, are not modelled.
- AuthController.Register: zod's list of field errors in the 400 body is not
  modelled, and the 400 answer here carries only the message.
- Request bodies that are not JSON objects are not modelled. A route request
  is a JSON object, and the controller's bodies are typed records.
- The text `str(e)` of a 500 answer from the AI server is not modelled (the
  `Exception` body).
- String lengths are counted in code points; JavaScript counts UTF-16 code
  units.
- Numbers are exact reals. Floating-point rounding, `float(...)` casts and
  numpy's `tolist()` are not modelled.
- `preprocess_face` (colour conversion, resizing, scaling to [-1, 1]) happens
  inside the network parameter, and the 160x160 input size is not modelled.
- AuthController.RegisterThenLogin: `sign` depends on the payload alone. The
  token library also writes the signing time (`iat`) and the expiry (`exp`),
  so two tokens for the same user differ from one second to the next; the
  lemma promises a token over the same payload, not the registration's token.
- FaceRecognitionRoutes.Numeric: comparing with an empty list gives an empty
  numpy array, whose truth value depends on the numpy version (false with a
  warning, or an error in recent versions). The model answers 500 for it.
- EndToEnd.BodyOf: the third step of the wizard, which sends the form, is not
  part of this model, so the body built from a form is an assumption.
- The routes crop with `extract_face` as written (`Preprocess.ExtractFaceAsWritten`,
  through `FaceRecognitionRoutes.BestCrop`), as the source does, wrap-around
  included. The corrected crop (`Preprocess.ExtractFace`) is the intended half
  of the Findings row, and `Preprocess.AsWrittenAgrees` proves that the two agree
  whenever the widened box's right and bottom edges are not negative.
- Concurrency is not modelled:
  - `Promise.all` is modelled as "some call threw", and the order in which
    calls complete is ignored;
  - debouncing, timers and races between overlapping availability checks are
    left out, and a check is its start plus its end;
  - `await` interleavings in the stores are left out, and every action is
    its first `set` followed by its second.
- RegisterStepOne.StepOne.BeginUsernameCheck: the in-flight
  `isChecking` state is modelled only between the start and the end of a
  check; stale answers that arrive after a newer check started are not
  modelled.
- zustand's `persist` middleware (writing to and rehydrating from
  localStorage) is left out. Only the `partialize` choice is modelled, as
  `Persist()`.
- The interceptor reads the localStorage key 'token', which none of the
  modelled code writes: the session store persists under 'auth-storage'. The
  model takes the stored value as given.
- JSX markup, styling and animation are left out. Only the values that decide
  the step indicator's and the theme provider's output are modelled.
- `RegisterStore.setFormField` is modelled for values of the field's own
  type, which TypeScript's signature requires.
- RegisterStore.FitsForm: a `Partial<RegisterFormData>` whose key is present
  with the value `undefined` is allowed by TypeScript, and the spread would
  store `undefined`. The model's values always have the field's type, so that
  update is excluded.
- AuthController.Register: the remote embedding answers are a function of the
  image, so two equal images in `faceImages` get the same answer. In the
  source they are two independent HTTP calls that could answer differently.

## Findings

| source | as written | input that shows it | evidently intended | confidence | as-written member | corrected member |
|---|---|---|---|---|---|---|
| ai-server/src/utils/preprocess.py:49-53 | `x2 = min(img_width, x + width + margin)` can be negative, and `img[y1:y2, x1:x2]` then counts that stop from the end of the row | a 1-row, 100-column image with box (-60, 0, 35, 1) and margin 20: x2 = -5, so columns 0..94 are returned | a box outside the image gives an empty crop, and the crop is always the box's intersection with the image | low (a detector rarely reports such a box); not executed | Preprocess.AsWrittenWrapsAround | Preprocess.ExtractFaceIsIntersection |
