# Media atom maker video UI: upload pipeline and editor logic in Dafny

This project models the browser side of the media atom maker's video
uploads, plus the pure logic of three of its React components.

- `PandaClient` (`panda_reqwest.dfy`) models `pandaReqwest`. The payload
  defaults are `application/json` and `get`, and truthy data is sent as
  JSON text. `poll` retries on a fixed policy:
  - status 419 (expired panda session): `reEstablishSession` with a 5000 ms
    limit, then a retry after 100 ms, whatever the deadline;
  - any other failure: a retry after 100 ms while the clock is before
    `start + timeout`, and rejection after that.
- `UploadsApi` (`uploads_api.dfy`) holds the backend requests one upload
  makes: per-part credentials, part commit, and stop. It also builds the
  parameters of each part's S3 transfer, whose body is
  `file.slice(part.start, part.end)`.
- `UploadHandle` (`upload_handle.dfy`) turns `UploadHandle`'s promise chain
  into a state machine:
  - each settled promise is an `Event`;
  - each call the handle makes is an `Effect`;
  - the walk over the parts is explicit in `Stage`.

  The properties proved are:
  - parts are processed strictly in order;
  - each part asks for its own credentials, transfers exactly its own byte
    range with those credentials, and commits;
  - the `X-Upload-Uri` token is threaded from one commit to the next;
  - `completeFn` and `errFn` run at most once between them, as the last
    call of the walk (callbacks are assumed not to throw, and `stop` may
    still be called afterwards);
  - for parts in ascending byte order, and S3 byte counts that stay within
    each part and do not go back, progress never decreases;
  - `stop` abandons the upload and aborts the last transfer started.
- `KeywordPicker` (`keyword_picker.dfy`) covers adding, validating and
  removing YouTube keywords.
- `VideoTrail` (`video_trail.dfy`) computes the list of squares shown under
  the upload form.
- `Display` (`display.dfy`) covers the edit-state rules of the video page.
- `Wrappers` and `Js` (`wrappers.dfy`) provide `Option` and JavaScript
  truthiness.

The network, the clock and session renewal are not code in this model.
One call of `poll` is described by a trace of what each attempt observed:
- an answer;
- or an error, together with the clock reading and whether the session was
  renewed.

An S3 transfer and a backend call reach the upload state machine only as
the events they deliver.

Two behaviours of the code that a reader may not expect are modelled as
written:
- A failed session renewal does not reject `poll`. The error is thrown
  inside a callback, so the promise never settles (`Hung`). A credential
  request that meets it leaves the upload waiting for ever.
- `stop` changes no state. It always sends the `DELETE`, even after the
  upload completed. It aborts the last transfer recorded, even one that
  already finished. A commit that succeeds after `stop` still starts the
  next part.

## Model

| member | source | states |
|---|---|---|
| PandaClient.MakePayload | public/video-ui/src/services/pandaReqwest.js:37-47 | url and headers are passed through; method and content type default to `get` and `application/json` only when the caller gave none; data becomes JSON text iff it is truthy, and is otherwise passed unchanged |
| PandaClient.PayloadDefaults | public/video-ui/src/services/pandaReqwest.js:38-44 | a URL-only body goes out as a JSON `get` without data; a body that sets every field is sent as given |
| PandaClient.PollFrom | public/video-ui/src/services/pandaReqwest.js:5-31 | `poll` consumes no more attempts than observed; the first action is a request and every wait is followed by a new request; every wait is the 100 ms interval and every renewal uses the 5000 ms limit |
| PandaClient.ResolvedIff | public/video-ui/src/services/pandaReqwest.js:9-31 | `poll` resolves with a response after exactly n attempts iff attempt n answered with it and every earlier attempt was retried |
| PandaClient.RejectedIff | public/video-ui/src/services/pandaReqwest.js:23-28 | `poll` rejects with an error after n attempts iff attempt n failed with that non-419 error at or past the deadline and every earlier attempt was retried |
| PandaClient.HungIff | public/video-ui/src/services/pandaReqwest.js:11-22 | `poll` never settles iff some attempt hit 419 and the session renewal failed, after only retried attempts |
| PandaClient.DecidedIgnoresLaterAttempts | public/video-ui/src/services/pandaReqwest.js:9-31 | once `poll` has resolved, rejected or hung, no further request is made |
| PandaClient.SessionExpiryRetriedPastDeadline | public/video-ui/src/services/pandaReqwest.js:11-18 | a 419 answered by a successful renewal is retried after 100 ms even past the deadline |
| PandaClient.GenericFailureRetriedBeforeDeadline | public/video-ui/src/services/pandaReqwest.js:23-28 | any other failure is retried after 100 ms iff the clock is strictly before the deadline, and is rejected with that same error otherwise |
| PandaClient.Poll | public/video-ui/src/services/pandaReqwest.js:5-6 | the deadline is `start + timeout`: a first failure other than 419 is retried after 100 ms iff its clock reading is before that deadline, and is otherwise rejected with that error after a single request |
| PandaClient.OutstandingRetriedAll | public/video-ui/src/services/pandaReqwest.js:9-31 | a `poll` still waiting has retried every attempt observed so far |
| PandaClient.PandaReqwest | public/video-ui/src/services/pandaReqwest.js:36-53 | sends the constructed payload and settles exactly as `poll` does from the call's start with the given timeout; a response it resolves with is one the backend actually sent |
| PandaClient.DefaultTimeoutNeverRetriesFailures | public/video-ui/src/services/pandaReqwest.js:5-37 | with the default timeout of 0 and a clock that does not run backwards, every retried attempt, including the last of a still-waiting call, was a 419 whose session was renewed, and a first non-419 failure rejects at once |
| UploadsApi.SliceIndex | public/video-ui/src/services/UploadsApi.js:32 | a `slice` index resolves into `[0, size]`: counted from the end when negative, and clamped |
| UploadsApi.Slice | public/video-ui/src/services/UploadsApi.js:32 | the sliced range lies within the file; it is exactly `[start, end)` for in-range indices and empty when end resolves before start |
| UploadsApi.TransferFor | public/video-ui/src/services/UploadsApi.js:31-45 | a part's transfer uses the upload's bucket and region, the given credentials, the part's key and byte range, a private ACL and the file name as `original` |
| UploadsApi.GetCredentials | public/video-ui/src/services/UploadsApi.js:62-70 | credentials are requested by `post` to `/api2/uploads/<id>/credentials` with the part key as the only header |
| UploadsApi.CompleteHeaders | public/video-ui/src/services/UploadsApi.js:48-53 | the key header is always sent; `X-Upload-Uri` is sent iff the token is truthy, with the token as its value; nothing else is sent |
| UploadsApi.CompletePart | public/video-ui/src/services/UploadsApi.js:48-60 | a part is committed by `post` to `/api2/uploads/<id>/complete` with those headers |
| UploadsApi.StopUpload | public/video-ui/src/services/UploadsApi.js:24-29 | an upload is abandoned by `delete` on `/api2/uploads/<id>` |
| UploadsApi.PartCallPayloads | public/video-ui/src/services/UploadsApi.js:48-70 | the part calls go out as JSON `post`s; a commit carries `X-Upload-Uri` iff the token is present and non-empty, so the first commit (token `null`) never does |
| UploadHandle.New | public/video-ui/src/services/UploadsApi.js:88-97 | a new handle is idle, with no transfer recorded and no token |
| UploadHandle.UploadParts | public/video-ui/src/services/UploadsApi.js:110-130 | with parts remaining, credentials are requested for the first of them; with none remaining, completion is reported |
| UploadHandle.Step | public/video-ui/src/services/UploadsApi.js:99-130 | every event keeps the handle well formed, never changes the upload or file, never moves back to an earlier part, and makes at most one call (other than `stop`) |
| UploadHandle.Run | public/video-ui/src/services/UploadsApi.js:99-130 | a sequence of events keeps the handle well formed and never moves back to an earlier part |
| UploadHandle.Fail | public/video-ui/src/services/UploadsApi.js:124-126 | a rejection of the promise the walk waits on calls `errFn` with that error and marks the walk failed at that step; a rejection nothing waits for does nothing |
| UploadHandle.StopEffects | public/video-ui/src/services/UploadsApi.js:103-108 | `stop` first asks the backend to abandon the upload, then aborts the recorded transfer iff there is one, and makes no other call |
| UploadHandle.StepExtendsWalk | public/video-ui/src/services/UploadsApi.js:110-130 | each event appends to the log of calls exactly the steps the walk prescribes for the stage it moves to |
| UploadHandle.RunExtendsWalk | public/video-ui/src/services/UploadsApi.js:110-130 | the same holds for any sequence of events from any well-formed handle |
| UploadHandle.PartsInOrder | public/video-ui/src/services/UploadsApi.js:110-130 | the calls so far are credentials, transfer of exactly its slice, and commit for each earlier part in list order, then a prefix of those for the current part, then at most one report |
| UploadHandle.ReportsEndTheWalk | public/video-ui/src/services/UploadsApi.js:110-130 | a completion or error report is the last call; completion is reported iff the walk completed, and then the log is every part committed in order followed by the report; an error is reported iff the walk failed |
| UploadHandle.AllAcceptedCompletes | public/video-ui/src/services/UploadsApi.js:119-128 | an upload with parts whose every commit was accepted has reported completion |
| UploadHandle.TerminalIsFinal | public/video-ui/src/services/UploadsApi.js:115-129 | after completion or failure, no later event leads to a credential request, transfer, commit or report |
| UploadHandle.EmptyUploadCompletesAtOnce | public/video-ui/src/services/UploadsApi.js:99-130 | an upload without parts reports completion on `start`, without any backend or S3 call |
| UploadHandle.FailureStopsTheWalk | public/video-ui/src/services/UploadsApi.js:124-126 | a failed step reports the error as its last call and starts no later part |
| UploadHandle.TokenCounts | public/video-ui/src/services/UploadsApi.js:119-121 | the handle's token is the latest token accepted; one token is accepted per finished part; one extra commit is outstanding while a commit is pending or has failed |
| UploadHandle.TokenThreading | public/video-ui/src/services/UploadsApi.js:96-122 | the first commit passes no token, and commit k+1 passes the token commit k returned |
| UploadHandle.CommitHeadersThreadTokens | public/video-ui/src/services/UploadsApi.js:48-60 | commit k belongs to an existing part k; sent with that part's key, it carries `X-Upload-Uri` iff k > 0 and commit k-1 returned a non-empty token |
| UploadHandle.TransferUsesIssuedCredentials | public/video-ui/src/services/UploadsApi.js:31-45 | the transfer starts with the credentials just issued for that part and sends the part's own slice; it is recorded as the handle's request |
| UploadHandle.RequestIsLastTransfer | public/video-ui/src/services/UploadsApi.js:115-116 | the recorded request is the last transfer started, or none before the first |
| UploadHandle.StopAbortsOnlyStartedTransfers | public/video-ui/src/services/UploadsApi.js:103-108 | `stop` always requests abandonment; it aborts a transfer iff one was started, and then the last one started; it changes no state |
| UploadHandle.StopDoesNotCancel | public/video-ui/src/services/UploadsApi.js:103-122 | a commit that succeeds after `stop` still requests credentials for the next part |
| UploadHandle.ProgressIsPartOffset | public/video-ui/src/services/UploadsApi.js:40-42 | every progress value is the reporting part's start plus the bytes it has loaded, and reports come part by part in list order |
| UploadHandle.ProgressTagsOrdered | public/video-ui/src/services/UploadsApi.js:40-42 | progress reports come from the parts processed, in list order |
| UploadHandle.ReportedMatchesTags | public/video-ui/src/services/UploadsApi.js:40-42 | the k-th value passed to `progressFn` is computed from the k-th progress event that took effect |
| UploadHandle.ProgressMonotone | public/video-ui/src/services/UploadsApi.js:40-42 | when the parts are in ascending, non-overlapping byte order, and each loaded count stays within its part and does not go back within a part, the reported progress never decreases |
| UploadHandle.CredentialsEvent | public/video-ui/src/services/UploadsApi.js:113-126 | a credential request reaches the walk iff it resolves or rejects; resolution delivers the issued credentials and rejection delivers the error |
| UploadHandle.CredentialFailureEndsWalk | public/video-ui/src/services/UploadsApi.js:113-126 | a first credential attempt failing with a non-419 error fails the part and hands that error to `errFn`; a failed renewal leaves the walk waiting, with no report |
| KeywordPicker.UpdateNewKeywordText | public/video-ui/src/components/utils/KeywordPicker.js:9-13 | the text becomes the input's value, or empty when that value is missing or empty |
| KeywordPicker.IndexOf | public/video-ui/src/components/utils/KeywordPicker.js:35 | returns the first position of the keyword, or -1 iff it is absent |
| KeywordPicker.IsValidKeyword | public/video-ui/src/components/utils/KeywordPicker.js:24-40 | a keyword is valid iff it is non-empty and not already in the list; with no list, any non-empty text is valid |
| KeywordPicker.AddKeyword | public/video-ui/src/components/utils/KeywordPicker.js:15-22 | the new list is the old one (empty when absent) followed by the text, and the text is cleared |
| KeywordPicker.RemoveKeyword | public/video-ui/src/components/utils/KeywordPicker.js:42-45 | every occurrence of the keyword is removed; every other keyword keeps its count and its relative order |
| KeywordPicker.ValidAddKeepsDistinct | public/video-ui/src/components/utils/KeywordPicker.js:15-40 | adding only valid keywords keeps the list free of duplicates and of empty keywords |
| KeywordPicker.AddThenRemove | public/video-ui/src/components/utils/KeywordPicker.js:15-45 | removing a keyword just validly added gives back the original list |
| KeywordPicker.RemoveIdempotent | public/video-ui/src/components/utils/KeywordPicker.js:42-45 | removing twice equals removing once, and a removed non-empty keyword is valid again |
| KeywordPicker.RemoveClickAsWritten | public/video-ui/src/components/utils/KeywordPicker.js:47-54 | the remove button, as written, never updates the keywords |
| KeywordPicker.RemoveClickAsWrittenKeepsKeyword | public/video-ui/src/components/utils/KeywordPicker.js:51 | clicking the remove button of the keyword "news" in ["news"] leaves it in place |
| KeywordPicker.RemoveClick | public/video-ui/src/components/utils/KeywordPicker.js:42-51 | the intended click removes every occurrence of the keyword and keeps every other one |
| VideoTrail.EmbedFor | public/video-ui/src/components/VideoUpload/VideoTrail.js:8-22 | an iframe of 320x180 pointing at the YouTube embed URL of the asset, iff the platform is "Youtube" |
| VideoTrail.SelectorFor | public/video-ui/src/components/VideoUpload/VideoTrail.js:24-31 | the button is disabled and reads "Active" iff the asset is active; it selects that asset id and version |
| VideoTrail.VideoAsset | public/video-ui/src/components/VideoUpload/VideoTrail.js:40-56 | the "No Assets Added" box iff there is no id; otherwise the embed and selector of that asset, dated iff `created` is truthy |
| VideoTrail.EmptyAsset | public/video-ui/src/components/VideoUpload/VideoTrail.js:90 | an asset square without props is the "No Assets Added" box |
| VideoTrail.FirstNotOnS3 | public/video-ui/src/components/VideoUpload/VideoTrail.js:78 | finds the first part not yet on S3, and finds none iff every part is on S3 |
| VideoTrail.LocalSquares | public/video-ui/src/components/VideoUpload/VideoTrail.js:73-75 | the local upload gets one square iff its total is truthy |
| VideoTrail.UploadSquares | public/video-ui/src/components/VideoUpload/VideoTrail.js:77-83 | each backend upload contributes at most one square (which ones: `UploadSquaresIff`) |
| VideoTrail.UploadSquaresIff | public/video-ui/src/components/VideoUpload/VideoTrail.js:77-83 | an upload gets an "Uploading To YouTube" square iff none of its parts is missing from S3, and every such square belongs to such an upload |
| VideoTrail.UploadSquaresAreYoutube | public/video-ui/src/components/VideoUpload/VideoTrail.js:81 | every backend upload square reads "Uploading To YouTube" |
| VideoTrail.AssetSquares | public/video-ui/src/components/VideoUpload/VideoTrail.js:85-87 | each asset contributes exactly one square (which one: `AssetSquaresIndexed`) |
| VideoTrail.AssetSquaresIndexed | public/video-ui/src/components/VideoUpload/VideoTrail.js:85-87 | the k-th asset square shows the k-th asset, active iff its version equals the active version |
| VideoTrail.EmptyUploadOnS3 | public/video-ui/src/components/VideoUpload/VideoTrail.js:78-80 | an upload with no parts counts as fully on S3 |
| VideoTrail.RenderTrail | public/video-ui/src/components/VideoUpload/VideoTrail.js:70-92 | the squares pushed are the local square, then the uploads on S3, then the assets; the placeholder is shown iff all three are empty, and it is the "No Assets Added" box |
| VideoTrail.Trail | public/video-ui/src/components/VideoUpload/VideoTrail.js:70-87 | the trail holds one square per asset, plus at most one local square and at most one square per upload |
| VideoTrail.TrailEmpty | public/video-ui/src/components/VideoUpload/VideoTrail.js:90 | the trail is empty iff there is no local square, no upload square and no asset |
| VideoTrail.LocalSquareFirst | public/video-ui/src/components/VideoUpload/VideoTrail.js:70-87 | the trail starts with an "Uploading To S3" square iff the local upload has a truthy total |
| VideoTrail.AssetsLast | public/video-ui/src/components/VideoUpload/VideoTrail.js:70-87 | the assets come last, one square each in input order and each active iff its version is the active one; every square before them is an upload square |
| Display.CannotOpenEditForm | public/video-ui/src/components/Video/Display.js:103-109 | a form cannot be opened iff an edit state exists and either form is being edited |
| Display.FormFor | public/video-ui/src/components/Video/Display.js:114-119 | `metadataEditable` selects the metadata form, `youtubeEditable` the YouTube form, and any other property selects none |
| Display.CannotCloseEditForm | public/video-ui/src/components/Video/Display.js:112-126 | a form cannot be closed iff some field of that form has a non-empty error list; missing errors, or a property naming no form, allow closing |
| Display.ManageEditingState | public/video-ui/src/components/Video/Display.js:58-67 | only the named flag flips and every other entry is unchanged; the video is saved iff that flag was set |
| Display.ToggleTwice | public/video-ui/src/components/Video/Display.js:58-67 | two clicks restore a set flag and save the video exactly once |
| Display.CannotEditStatus | public/video-ui/src/components/Video/Display.js:69-71 | the status is locked iff an expiry date exists and is at or before now |
| Display.ExpiryIsFinal | public/video-ui/src/components/Video/Display.js:69-71 | once locked, the status stays locked as time passes |
| Display.VideoPageUsages | public/video-ui/src/components/Video/Display.js:94 | the filter keeps exactly the usages of type `video`: each as many times as it occurs, in their original order |
| Display.NoVideoPageIffEmpty | public/video-ui/src/components/Video/Display.js:94 | the filter finds nothing iff no usage has type `video` |
| Display.OffersVideoPageCreation | public/video-ui/src/components/Video/Display.js:93-101 | "Create Video Page" is offered iff no usage has type `video` |
| Display.RenderVideo | public/video-ui/src/components/Video/Display.js:145-150 | the stored video is shown iff it exists and its id equals the route id; otherwise "Loading..." is shown |
| Display.EditButtonFor | public/video-ui/src/components/Video/Display.js:128-143 | an open form shows "done", disabled iff it cannot close; a closed form shows "edit", disabled iff some form is open |
| Display.EnabledClickKeepsOneOpen | public/video-ui/src/components/Video/Display.js:128-143 | clicking an enabled button keeps at most one form open; "edit" opens exactly that form without saving, and "done" closes it and saves |

## Left out

- AWS SDK: the S3 client, `s3.upload` and `request.promise()` are not modelled as code. A transfer is its parameters, and its outcome is the events `TransferProgress`, `TransferFinished` and `TransferFailed`.
- `reqwest`, `reEstablishSession` and `getStore().getState().config.reauthUrl` are foreign calls. Their outcomes come from the attempt trace, and the URL is not modelled.
- The clock is not modelled: `Number(new Date())` is the `now` recorded with each failed attempt, plus the `start` argument.
- `setTimeout`: a retry is the action `Sleep(100)` followed by the next trace entry; real time is not modelled.
- `getUploads` and `createUpload` are not modelled: nothing in the upload walk uses them. `createUpload` also `JSON.stringify`s its data once more inside `pandaReqwest`, so its body is sent as doubly encoded JSON text.
- PandaClient.MakePayload: a property the caller sets explicitly to `undefined` overrides the default in `Object.assign`. The model reads such a property as absent, so it gets the default.
- UploadHandle.Step: callbacks are assumed not to throw. If `completeFn` throws after the last commit, the last part's `.catch` catches it and `errFn` runs as well; the model reports completion only.
- UploadHandle.Step: progress is dropped outside the transfer stage. The `httpUploadProgress` listener stays attached to every transfer started, so this assumes S3 reports no progress once its transfer has settled. `ProgressMonotone` rests on this assumption.
- UploadHandle.Step: a second `start` on a handle that is not idle is a no-op here. In the source it launches a second, concurrent walk over all the parts.
- UploadHandle.ProgressMonotone: it does not prove that progress ends at the file size. That depends on the part ranges covering the file, which only the backend guarantees.
- Display.CannotEditStatus: a `null` expiry date compares as 0 in JavaScript and is not modelled. The model treats an absent date as `undefined`, which is never at or before a number.
- Display.CannotCloseEditForm: a property naming no form looks up `formErrors["undefined"]` in the source. The model treats that lookup as finding no errors.
- Display.ManageEditingState: `Object.assign` mutates `props.editState` in place. The model returns the new state as a value; object identity is not modelled.
- Display.FormFor: the values of `formNames.metadata` and `formNames.youtube` come from a file that is not part of this model. They are modelled as the two constructors of `FormName`.
- Edit-state flags are modelled as booleans. A truthy non-boolean value set by other code is not modelled.
- VideoTrail.VideoAsset: JSX applies props left to right, and the source spreads `{...asset}` after `active` and `selectAsset` (line 86) and `{...localUpload}` after `message` (line 74). Assets are assumed to carry no `active` or `selectAsset` of their own, and local uploads no `message`, so the computed values are the ones shown.
- Dates are not formatted: `moment` formatting of `created` in `VideoTrail`, and the `Date.now()` given to an upload square, are not modelled.
- The `UploadAsset` progress bar (`progress === undefined`) is not modelled: a square keeps its total and progress as data.
- Redux wiring (`mapStateToProps`, `mapDispatchToProps`), `postMessage`, page creation and the JSX layout are not modelled.
- `VideoPublishBar`, `PrivacyStatus` and the other components that use these modules are not part of this model.
- Concurrency is not modelled: events are delivered one at a time in a single order. Session renewal is not single-flight, since the code renews once per failing request.

## Findings

| source | as written | input that shows it | evidently intended | confidence | as-written member | corrected member |
|---|---|---|---|---|---|---|
| public/video-ui/src/components/utils/KeywordPicker.js:51 | the remove button calls the bare name `removeKeyword`, which the module never declares (it is a method of the class), so a click throws a `ReferenceError` and nothing is removed | keywords `["news"]`, click the remove button of `"news"` | the click removes the keyword through the component's `removeKeyword`: every occurrence is removed and the rest is kept in order. This also needs `renderKeyword` bound to the component, since line 62 passes it to `map` unbound | not executed | KeywordPicker.RemoveClickAsWrittenKeepsKeyword | KeywordPicker.RemoveClick |
