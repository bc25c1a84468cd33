# Gallery page logic, modelled in Dafny

This project models the three pieces of behaviour in the gif/video gallery site's
front end that can be stated on their own, apart from React, styling and the
network:

- **The Gif card's playback controller** (`gif.dfy`, module `GifComponent`). The
  card keeps four booleans: `play`, `mouseover`, `buttonHover` and `buttonClicked`.
  Mouse-enter, mouse-leave and click start or pause the embedded video, unless the
  `autoplay` prop is set. An overlay button keeps its own hover and click flags and
  navigates to `/<username>/<slug>`. The class `Gif` has these fields and one method
  per handler. The video's `play()`/`pause()` and the navigation are appended to an
  `effects` log. Each method's new state is tied to a pure transition function,
  `Step`, and the lemmas are proved about `Step` and `Run`. `Run` folds `Step` over a
  sequence of events. The invariant `Consistent` has three parts:
  - `play` agrees with the last media call;
  - the card is only hovered while it plays;
  - an autoplaying card never calls the video.
- **The upload page** (`upload.dfy`, module `UploadPage`). The class `Upload` has
  the page's state fields and a log of the calls it makes (request key, upload,
  create gif, status, redirect). It models these steps:
  - file selection, with an exact MIME match on `image/gif`;
  - the transfer's progress callback, which keeps the larger of the shown value and
    `floor(loaded*100/total)`;
  - the interval tick, which shows `min(progress*100, 100)`, replaces a missing or
    zero progress by 0.01, stops on `complete` or `error`, and redirects home only
    on `complete`.

  The interval is a loop over a given sequence of status records (`Poll`). The
  whole upload is `StartUpload`. The pure functions `TransferPercent`,
  `FoldTransfer`, `TickPercent`, `PollTicks` and `PollCalls` specify these methods.
  The panels `render` draws and the status label are pure functions.
- **The detail page helpers** (`appdetail.dfy`, module `AppDetail`). These are the
  title, the four meta URLs (thumbnail and video, secure and unsecure base) and the
  keywords content. The heart button's like/unlike/sign-in decision is a function
  that returns the action taken. The props that `getInitialProps` assembles are the
  gif record with `username`, `originalUrl`, `width`, `height`, `stars` and
  `checked` written over it. The calls it makes are returned as a list.

`wrappers.dfy` holds the `Option` type used for values that JavaScript leaves
`undefined`.

Parameters take the place of the API's answers, the GitHub star count, the signed-in
user, the environment's base URLs and the current path.

## Model

| member | source | states |
|---|---|---|
| `GifComponent.Gif.constructor` | components/Gif/index.js:40-45 | `play` starts as the `autoplay` prop; `mouseover`, `buttonHover`, `buttonClicked` start false; no effects yet; the invariant holds |
| `GifComponent.InitialConsistent` | components/Gif/index.js:40-45 | the initial state has `play == autoplay`, the other three flags false, and satisfies the invariant |
| `GifComponent.Gif.OnMouseEnterHandler` | components/Gif/index.js:47-53 | with autoplay nothing changes and no call is made; otherwise one `play()` call, `play` and `mouseover` true; button flags untouched; invariant kept |
| `GifComponent.Gif.OnMouseLeaveHandler` | components/Gif/index.js:55-61 | with autoplay nothing changes; otherwise one `pause()` call, `play` and `mouseover` false; button flags untouched; invariant kept |
| `GifComponent.Gif.OnClick` | components/Gif/index.js:63-74 | with autoplay nothing changes; otherwise `pause()` and `play` false when playing and not hovered, else `play()` and `play` true; `mouseover` unchanged; invariant kept |
| `GifComponent.Gif.PlayVideo` | components/Gif/index.js:80-82 | appends exactly one `play()` call to the effect log |
| `GifComponent.Gif.PauseVideo` | components/Gif/index.js:76-78 | appends exactly one `pause()` call to the effect log |
| `GifComponent.Gif.OnButtonHover` | components/Gif/index.js:129-130 | focus or mouse-over on the overlay button sets `buttonHover` and nothing else |
| `GifComponent.Gif.OnButtonMouseLeave` | components/Gif/index.js:131-133 | leaving the overlay button clears `buttonHover` and `buttonClicked` and nothing else |
| `GifComponent.Gif.OnButtonClick` | components/Gif/index.js:134-138 | clicking the overlay button sets `buttonClicked` and navigates to `/` + username + `/` + slug; `play` untouched |
| `GifComponent.MouseEnterPlays` | components/Gif/index.js:47-53 | without autoplay, mouse-enter performs exactly `[play()]` and ends playing and hovered, button flags unchanged |
| `GifComponent.MouseLeavePauses` | components/Gif/index.js:55-61 | without autoplay, mouse-leave performs exactly `[pause()]` and ends paused and not hovered, button flags unchanged |
| `GifComponent.ClickToggles` | components/Gif/index.js:63-74 | without autoplay, a click pauses if and only if playing and not hovered and plays otherwise; `mouseover` is kept; a click while hovering, or on a paused card, ends playing |
| `GifComponent.AutoplayFreezesCard` | components/Gif/index.js:47-66 | with autoplay, mouse-enter, mouse-leave and click leave the state unchanged and perform no effect |
| `GifComponent.AutoplayKeepsPlaying` | components/Gif/index.js:40-100 | with autoplay, no sequence of events changes `play` or `mouseover` or calls the video, so an autoplaying card never shows the play icon |
| `GifComponent.StepConsistent` | components/Gif/index.js:47-138 | every handler keeps the invariant: `play` matches the last media call, hovering implies playing, autoplay implies no media call |
| `GifComponent.RunConsistent` | components/Gif/index.js:47-138 | any sequence of events, from a consistent state, keeps the invariant |
| `GifComponent.PlayMatchesLastCall` | components/Gif/index.js:47-82 | from mount, after any events, `play` is true after a last `play()`, false after a last `pause()`, and equals `autoplay` before any call |
| `GifComponent.ButtonHandlers` | components/Gif/index.js:127-138 | the overlay button's handlers never change `play` or `mouseover`; leave clears both button flags; click sets `buttonClicked` and navigates to `/username/slug`; focus and mouse-over set `buttonHover` |
| `GifComponent.DetailUrl` | components/Gif/index.js:136 | the detail URL is `/`, the username, `/`, the slug, with nothing else |
| `GifComponent.Step` | components/Gif/index.js:47-138 | one handler as a transition: at most one effect; with autoplay a card event changes nothing; card events keep the button flags and button events keep `play` and `mouseover`; a `play()` call leaves `play` true and a `pause()` call leaves it false |
| `GifComponent.Run` | components/Gif/index.js:47-138 | handlers run in sequence perform at most one effect per event |
| `GifComponent.PlayIconTracksLastCall` | components/Gif/index.js:100 | without autoplay, from mount, the play icon shows exactly when the last media call was not `play()`: before any call or after `pause()` |
| `UploadPage.Upload.constructor` | pages/upload.js:82-92 | no file, `isGif` true, `isVideo` false, `preview` false, 0%, status task `uploading`; only the placeholder is drawn; the page invariant holds (exactly one of `isGif`/`isVideo`, `preview` never set), and every method keeps it |
| `UploadPage.Upload.HandleChange` | pages/upload.js:94-103 | records the file; `isGif` if and only if the MIME type is exactly `image/gif`; `isVideo` is its negation; `preview` false; the preview then draws exactly one of image or video |
| `UploadPage.FloorPercent` | pages/upload.js:107-108 | the callback's percentage is the floor of `loaded*100/total` |
| `UploadPage.TransferPercent` | pages/upload.js:106-115 | the new value is the larger of the shown value and the floored percentage |
| `UploadPage.Upload.OnUploadProgress` | pages/upload.js:106-115 | the callback sets the shown value to `TransferPercent` of the old one, so it never decreases |
| `UploadPage.Upload.Transfer` | pages/upload.js:106-115 | one upload call, then the shown value is the callback folded over the progress events in order |
| `UploadPage.FoldTransfer` | pages/upload.js:106-115 | the value after a sequence of callbacks is at least the starting value and at least the last event's floored percentage |
| `UploadPage.TransferMonotone` | pages/upload.js:106-115 | along any sequence of callbacks the shown value is non-decreasing and never below its starting value |
| `UploadPage.TransferBounded` | pages/upload.js:107-113 | one callback with `loaded <= total` from a value at most 100 stays at most 100 |
| `UploadPage.FoldTransferBounded` | pages/upload.js:106-115 | if every event has `loaded <= total` and the start is at most 100, the transfer never shows more than 100 |
| `UploadPage.EffectiveProgress` | pages/upload.js:121 | `status.progress` is replaced by exactly 0.01 when missing or 0, and is otherwise kept; never 0 |
| `UploadPage.TickPercent` | pages/upload.js:121-125 | the tick shows `min(progress*100, 100)` |
| `UploadPage.TickNeverZero` | pages/upload.js:121-125 | a tick never shows 0%, and shows a positive value when the progress is absent or non-negative |
| `UploadPage.TickMayDecrease` | pages/upload.js:106-125 | unlike the callback, a tick can lower the value (80% from the transfer, then 10% from a progress of 0.1) |
| `UploadPage.PollTicks` | pages/upload.js:119-136 | polling runs up to and including the first `complete` or `error` record; every earlier record is non-terminal |
| `UploadPage.TickCalls` | pages/upload.js:120-133 | a tick first asks for the status; it makes a second call, the redirect to `/`, if and only if the task is `complete`, and otherwise makes the status request alone |
| `UploadPage.PollCalls` | pages/upload.js:119-136 | the poll's calls start with a status request, number between one and two per tick run, and are only status requests and redirects to `/` |
| `UploadPage.Upload.PollTick` | pages/upload.js:119-136 | one tick stores the status, shows `TickPercent`, asks for the status, redirects to `/` only on `complete`, and stops exactly on `complete` or `error` |
| `UploadPage.Upload.Poll` | pages/upload.js:119-136 | runs `PollTicks` ticks; stops exactly when a terminal record was read; the calls are those of the ticks run; the last record read and its percentage are shown |
| `UploadPage.PollNavigatesOnlyOnComplete` | pages/upload.js:126-135 | the poll redirects home exactly once if it stopped on `complete`, and never after an `error` stop or while it is still running |
| `UploadPage.ErrorStopsWithoutRedirect` | pages/upload.js:126-135 | a status sequence that ends at its first terminal record, an `error`, is read entirely and never redirects |
| `UploadPage.CompletedUploadExample` | pages/upload.js:119-136 | `uploading 0.1`, `uploading 0.6`, `complete`: the poll stops after the third record and redirects once |
| `UploadPage.Upload.StartUpload` | pages/upload.js:104-137 | calls are made in the order request key, upload, create gif, then the poll's status calls; the shown value is the transfer's result until a tick overrides it |
| `UploadPage.Views` | pages/upload.js:171-201 | the placeholder is drawn if and only if there is no file; the preview if and only if there is a file at exactly 0%; the progress circle if and only if the percentage is above 0 |
| `UploadPage.ViewSelection` | pages/upload.js:171-201 | consequences of the three independent panel conditions: with a file exactly one panel shows for a non-negative percentage, placeholder and preview never show together, preview and circle never show together, and with no file above 0% the placeholder and the circle both show |
| `UploadPage.PreviewElements` | pages/upload.js:191-196 | the preview draws an image if and only if `isGif` and a video if and only if `isVideo`, so exactly one element when the two flags differ |
| `UploadPage.StatusLabel` | pages/upload.js:221-223 | `NotFoundo` reads as `preparing encoding`, every other task verbatim; the label `preparing encoding` comes only from those two tasks |
| `UploadPage.StatusLabelCollisions` | pages/upload.js:221-223 | two tasks share a label only if equal, or if they are `NotFoundo` and `preparing encoding` |
| `AppDetail.GetTitle` | pages/appdetail.js:41 | the title is the name, then ` by @`, then the username |
| `AppDetail.TitleInjective` | pages/appdetail.js:41 | for a fixed username the title determines the name, and for a fixed name it determines the username |
| `AppDetail.MetaUrl` | pages/appdetail.js:43-53 | a meta URL is the base, then the gif id, then the suffix |
| `AppDetail.MetaIdRoundTrip` | pages/appdetail.js:43-53 | reading the id back from a meta URL with its base and suffix gives the id |
| `AppDetail.GetImageMeta` | pages/appdetail.js:43-44 | the secure thumbnail URL is the secure base, the id and `-size_restricted.gif`, and gives the id back |
| `AppDetail.GetUnsecureImageMeta` | pages/appdetail.js:46-47 | the unsecure thumbnail URL is the unsecure base, the id and `-size_restricted.gif`, and gives the id back |
| `AppDetail.GetVideoMeta` | pages/appdetail.js:49-50 | the secure video URL is the secure base, the id and `-mobile.mp4`, and gives the id back |
| `AppDetail.GetUnsecureVideoMeta` | pages/appdetail.js:52-53 | the unsecure video URL is the unsecure base, the id and `-mobile.mp4`, and gives the id back |
| `AppDetail.MetaUrlsDistinct` | pages/appdetail.js:43-53 | different ids give different URLs of each kind, and an image URL never equals a video URL whatever the bases |
| `AppDetail.SecureUnsecureDifferOnlyInBase` | pages/appdetail.js:43-53 | the secure and unsecure URLs coincide when the bases do, and differ when the bases differ at equal length |
| `AppDetail.JoinKeywords` | pages/appdetail.js:98 | no categories give the empty string, and the content starts with the first category |
| `AppDetail.KeywordsRoundTrip` | pages/appdetail.js:98 | splitting the keywords content at `, ` gives the categories back, when there is at least one and none contains a comma |
| `AppDetail.KeywordsLength` | pages/appdetail.js:98 | the keywords content is the categories' lengths plus two characters per separator |
| `AppDetail.UpdateLove` | pages/appdetail.js:55-69 | with a user: like if not yet liked, unlike if liked, with the user's nickname and the gif id; without a user: redirect to `/sign-in` with `next` the current path and no like or unlike |
| `AppDetail.Truthy` | pages/appdetail.js:176 | a value is falsy exactly when it is null or undefined, the empty string, 0 or `false` |
| `AppDetail.HasGithubLink` | pages/appdetail.js:176 | the gif has a GitHub link if and only if its `githubLink` field is present and truthy |
| `AppDetail.InitialPropsCalls` | pages/appdetail.js:171-182 | gif by slug, gif info, view increment first; the star count is fetched if and only if the gif has a GitHub link; the likes are fetched if and only if there is a user, last |
| `AppDetail.InitialProps` | pages/appdetail.js:171-192 | every gif field outside the six written ones passes through; `username` is the query's, overriding the gif's; `stars` is 0 without a GitHub link; `checked` holds if and only if there is a user whose likes contain the gif id |
| `AppDetail.HeartFollowsLikes` | pages/appdetail.js:129-133 | on the page, a signed-in user's heart click unlikes exactly when the gif is in their likes and likes otherwise; without a user `checked` is false and the click goes to sign-in |

## Left out

- The API, GitHub and cookie collaborators (`utils/api`, `utils/github`, `utils/auth`) are not part of this model. Their answers are parameters, and only which call is made, and in what order, is modelled. `getFullNameFormUrl` is one of them, so the star-count call records the raw GitHub link.
- Timers and `await`: the 7000 ms interval is a loop over a given sequence of status records. A sequence that never reaches a terminal record models a poll still running. Clearing the interval on unmount is not in the source and not modelled.
- Network failures and rejected promises: the source does not catch them, and the model has no error path for them.
- The `!status` test at pages/upload.js:127 is not modelled. Line 121 reads `status.progress` before that test, so an absent status throws before it is reached. Each status record is therefore a value that is present.
- A status whose `task` is absent or not a string is modelled as a task string that is neither `complete` nor `error`.
- Floating point: progress and the shown percentage are Dafny `real`s, so IEEE rounding (for example `0.1 * 100`) is not reproduced. `Number()` of a non-numeric progress (NaN) is not modelled.
- `UploadPage.Upload.OnUploadProgress`: requires a non-zero total. With a total of 0 JavaScript divides to `Infinity` or `NaN`, which a `real` cannot represent. The same precondition is on `FloorPercent`, `TransferPercent`, `FoldTransfer`, `Transfer` and `StartUpload`.
- The number-to-text formatting of the percentage after the status label, and the `%` sign, are not modelled. `StatusLabel` covers the label text.
- Selecting no file (`files[0]` undefined) makes `file.type` throw in the source. `HandleChange` takes a present file.
- Clicking "upload it" with no file chosen: the source does not guard against it, and neither does `StartUpload`. The model runs that case and records the ordinary call sequence. How the upload collaborator treats an `undefined` file is not modelled.
- `URL.createObjectURL`, the `<video>` element, `window.location.href` and `Router.push` are recorded as effects or calls only.
- In the browser, a click on the Gif card's overlay button also bubbles to the card's own `onClick`. The model treats each handler on its own; the bubbled click is a `Click` event that follows the `ButtonClick`.
- The Gif card's props (`autoplay`, `username`, `slug`) are fixed for the card's lifetime. The source reads `this.props.autoplay` again on each event but sets `play` from it only at mount. A parent re-rendering with a different `autoplay` is not modelled, and `Consistent` would not describe that case.
- The `this.video` ref being unset before mount, and React's batching of `setState`, are not modelled. Each handler applies its update at once.
- All styled-components CSS, the card's background and cursor, the poster and `<source>` URLs, the `Title` component and the rest of the JSX layout are left out. They compute no state.
- The `twitter:url` and `twitter:player` meta contents are left out: they join the package's `website` constant to the request URL or id. So are the `width` and `height` texts.
- The `user` prop of the detail page is supplied by `hocs/defaultPage`, which is not part of this model. `HeartFollowsLikes` takes the same user for the props and the click.
- `AppDetail.Value` uses one `Null` for both `null` and `undefined`. The `category` default (the package's keywords, used when the gif has none) is not modelled: `JoinKeywords` takes the list.
- The query's `username` is modelled as a string. A route without one would write `undefined` over the gif's own `username`.
