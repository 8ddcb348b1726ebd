# Bulletin Board: a Dafny model

Bulletin Board is a Sugar activity. It shows the starred entries of the
Journal as a slide show, lets the user reorder them as thumbnails, edit and
save their descriptions, and record audio notes. When the activity is
shared, peers exchange their slides over a Telepathy D-Bus tube. This
project models the logic behind that, with plain values in place of the
GTK, GStreamer and D-Bus objects:

- `outcomes.dfy` (`Outcomes`): `Option`, `Result` and the Python exceptions
  the code can raise.
- `text.dfy` (`Text`): the Python string built-ins the code relies on. These
  are `str.split` with and without a limit, clamped slicing, `strip`, and
  `int(s, 16)`.
- `colors.dfy` (`Colors`): `_luminance` and `lighter_color` from `utils.py`,
  and the colour swap in `_setup_workspace`.
- `hardware.dfy` (`Hardware`): `get_hardware`, with the DMI and file-system
  probes as inputs.
- `recorder.dfy` (`Recorder`): the recorder of `grecord.py` as a state
  machine. It covers the capture bin, the transcode job with its polling
  timer and bus handler, and `output.wav`. Every transcode pipeline built
  has an id, so a bus watch stays bound to its own pipeline after a later
  stop has replaced `_audioline`.
- `slides.dfy` (`Slides`): `Slide`, `_slide_search`, `_load` and `_dump`.
- `sync.dfy` (`Sync`): sharing. It models `event_received_cb`, `_send_event`,
  `ChatTube.send_stack_cb` and `_new_tube_cb`. The JSON codec is an abstract
  pair of functions, assumed only to round-trip where a lemma says so.
- `board.dfy` (`Board`): the slide show. It covers the index wrap of
  `_show_slide`, the prev/next/slides buttons, the description lookup, the
  thumbnail grid, the thumbnail drag-swap and `_save_descriptions_cb`.

Python exceptions are `Err` values. Where the code has already changed
state when it raises, the model returns that partial state together with
the exception, in a `raised` field. Examples are the stored text of
`Sync.Receive`, the descriptions already written by
`Board.SaveDescriptions` and the thumbnails already made by
`Board.ThumbsCb`.

Floating-point luminance `0.3 R + 0.6 G + 0.1 B` is scaled to the integer
`3 R + 6 G + B`.

Only the `'s'` and `'j'` message tags are handled by the code. The
protocol is sometimes described with a `'J'` and an `'a'` tag as well. No
code handles them, and this model follows the code.

As written, sharing never starts. `ChatTube.__init__` names an undefined
`PATH`, so `_new_tube_cb` raises `NameError` before it stores a chat tube,
and every later `_send_event` does nothing (`Sync.SharingNeverStarts`).
The rows `Sync.NewTube`, `Sync.SendStackCb`, `Sync.Receive`,
`Sync.OwnAnnouncementIgnored`, `Sync.ReplyIsLoadAll` and
`Sync.JoinDeliversOwnedUids` describe the corrected code, with the object
path defined. In that corrected code a join is answered only by peers
already in the share. A joiner's own slides reach only peers that join
after it, so convergence with the peers already there is one-way
(`Sync.JoinDeliversOwnedUids`).

Where the code is evidently wrong (see "## Findings"), the model keeps the
code as written and adds the intended definition beside it. `Sync.Receive`
is built on the intended message handler. The board's callbacks appear in
both forms, such as `Board.NextCb` and `Board.NextCbIntended`.

## Model

| member | source | states |
|---|---|---|
| Text.Split | BBoardActivity.py:937 | `split(sep)` gives one more piece than there are separators, and no piece contains the separator. |
| Text.SplitJoin | BBoardActivity.py:937 | Joining the pieces of `split(sep)` with `sep` gives back the original text, for every text. |
| Text.JoinSplit | BBoardActivity.py:937 | Splitting a join of `sep`-free pieces gives back exactly those pieces. |
| Text.SplitOnce | BBoardActivity.py:937 | A split at the first separator only: one piece when there is no separator; otherwise a separator-free head, then the separator, then the untouched rest. |
| Text.HexPair | utils.py:73-74 | `int(s, 16)` on two hex digits is `16*hi + lo`, which lies in 0..255. |
| Text.IntBase16 | utils.py:73-74 | `int(s, 16)` fails on a text that is empty after stripping. A negative result comes only from a leading '-'. |
| Text.PlainHexParses | utils.py:73-74 | A non-empty run of hex digits parses to its base-16 value. |
| Text.EmptyIsNotHex | utils.py:73-74 | `int('', 16)` raises `ValueError`. |
| Colors.Luminance | utils.py:71-74 | `_luminance` succeeds exactly when all three two-character slices parse in base 16, which needs at least six characters. |
| Colors.LuminanceOfHexColor | utils.py:71-74 | For a `#rrggbb` colour the luminance is the weighted channel sum `3R + 6G + B`, between 0 and 2550. |
| Colors.ShortColorRejected | utils.py:71-74 | A colour of at most five characters has an empty channel slice, so `_luminance` raises `ValueError`. |
| Colors.LighterColor | utils.py:77-81 | The answer exists exactly when two colours are given and both parse. It is 0 exactly when the first is strictly lighter, and otherwise 1. The errors follow Python's evaluation order. With one parsable colour it raises `IndexError`. With a parsable first and an unparsable second colour it raises `ValueError`. |
| Colors.LighterColorTie | utils.py:79-81 | Equal luminance answers 1. |
| Colors.LighterColorSwap | utils.py:77-81 | For colours of different luminance, exchanging them flips the answer. |
| Colors.NormaliseColors | BBoardActivity.py:167-173 | The swap in `_setup_workspace` fails exactly when `lighter_color` fails. Otherwise it returns the pair itself or swapped, with the darker colour first. When `lighter_color` answers 1 the pair is kept as it is. |
| Colors.NormalisePermutes | BBoardActivity.py:170-173 | The swap keeps the same colours, as a multiset, and the same length and tail. |
| Colors.NormaliseIdempotent | BBoardActivity.py:170-173 | Swapping an already swapped pair leaves it as it is. |
| Hardware.GetHardware | utils.py:34-53 | Each answer (XO-1, XO-1.5, XO-1.75, unknown) holds exactly under its combination of DMI product, DMI version and probe files. |
| Hardware.NamesDistinct | utils.py:20-23 | The four hardware names are pairwise different. |
| Hardware.NoProductOrder | utils.py:36-44 | Without a DMI product, the accelerometer wins over the OLPC files, and those win over "unknown". |
| Hardware.EmptyProductIsUnknown | utils.py:45-46 | An empty product name is not "XO" and gives "unknown". |
| Hardware.OtherProductIgnoresVersion | utils.py:45-47 | For a product other than "XO" the version is never looked at. |
| Recorder.Init | grecord.py:37-52 | The constructor leaves the pipeline NULL, the capture bin detached, nothing playing, no EOS callback and no transcode job. |
| Recorder.Play | grecord.py:98-103 | `play` leaves the pipeline PLAYING. It is a no-op when already playing, and otherwise sets `_playing`. Nothing else changes. |
| Recorder.RecordAudio | grecord.py:179-186 | Succeeds exactly when the capture bin is not attached, and then attaches it and plays. Otherwise the add raises with the pipeline left NULL. The transcode job is untouched. |
| Recorder.StopRecordingAudio | grecord.py:119-153 | Removing an unattached bin raises with the pipeline NULL. Otherwise the bin is detached and the pipeline plays again, and `output.wav` is whatever the capture wrote. A job starts exactly when that file exists and is non-empty. It has a new pipeline that plays and becomes `_audioline`, a fresh timer and handler, and position 0. A running job is not stopped, and its ids are overwritten. The timer and handler stay paired. |
| Recorder.Cleanup | grecord.py:215-226 | Removes the latest handler, then the latest timer, stops the pipeline it is given and deletes `output.wav`. A missing handler or timer raises `TypeError` at that step, a missing pipeline raises `AttributeError`, and a missing file raises `OSError`. With handler, timer and pipeline present it always ends with no timer, no handler and no file, and only the given pipeline is stopped. |
| Recorder.QueryPosition | grecord.py:195-206 | A failed position or duration query reads as `CLOCK_TIME_NONE`, and a successful one as its value. |
| Recorder.TranscodingComplete | grecord.py:155-174 | With no job the answer is true. Position equal to the duration, or unchanged since the last poll, runs the clean-up on `_audioline`, and the answer is true unless the clean-up raised. Any other position is remembered, and the answer is false. |
| Recorder.OnMuxedAudioMessage | grecord.py:208-216 | The watch is bound to the pipeline it was connected to (`grecord.py:149`). Non-EOS messages keep the watch. EOS runs the clean-up on that pipeline and drops the watch: the latest handler and timer are gone, that pipeline alone is stopped, and `_audioline` is unchanged. Without a handler the clean-up raises `TypeError` before anything changes. |
| Recorder.BusMessageHandler | grecord.py:228-240 | The EOS callback fires exactly on EOS while it is set, and is then cleared. |
| Recorder.EosCallbackOnce | grecord.py:230-234 | A second EOS does not fire the callback again. |
| Recorder.RecordThenStop | grecord.py:119-126 | Recording and then stopping attaches and then detaches the capture bin without raising. |
| Recorder.FirstPollAtZeroCompletes | grecord.py:152-172 | A fresh job whose first poll reports position 0 is declared done at once, and `output.wav` is deleted. |
| Recorder.SecondRecordingTranscodes | grecord.py:119-172 | After one job has finished and deleted its `output.wav`, a second record/stop cycle starts a new job on the newly captured file. |
| Recorder.StaleWatchEndsNewJob | grecord.py:119-153 | A second stop during a running job leaves the first pipeline's watch connected. Its EOS ends the second job: the handler, timer and `output.wav` are gone, the second pipeline is left playing, later polls answer true at once, and the second pipeline's own EOS raises `TypeError`. |
| Recorder.NoPipelinePollRaises | grecord.py:155-168 | With a timer and handler but no `_audioline`, both queries fail inside their `try` and read `CLOCK_TIME_NONE`. The poll therefore cleans up, removing the handler and timer, and then raises `AttributeError`. |
| Recorder.FailedQueriesComplete | grecord.py:165-168 | When both queries fail, both read `CLOCK_TIME_NONE` and a running job counts as finished. |
| Recorder.IdleStaysIdle | grecord.py:158-160 | Without a job, no run of polls calls the clean-up. |
| Recorder.AtMostOneCleanup | grecord.py:155-174 | While timer and handler are paired, any run of polls calls the clean-up at most once, raising or not. |
| Recorder.UnpairedTimerRetriesCleanup | grecord.py:215-219 | A timer without a handler makes each clean-up raise before it drops the timer, so two polls clean up twice. |
| Recorder.StallCleansUpOnce | grecord.py:169-172 | Two polls at the same position end a running job, and the clean-up runs exactly once. |
| Recorder.OperationsKeepValid | grecord.py:44-45 | Every operation keeps the timer id and the bus handler set or cleared together. |
| Slides.SlideSearch | BBoardActivity.py:830-835 | True exactly when some slide has the uid. |
| Slides.Load | BBoardActivity.py:822-828 | `_load` appends one non-owner slide exactly when the record has five fields and a new uid. The fields map to uid, colors, title, pixbuf and desc as indices 0, 1, 2, 4, 3. Existing slides are untouched. |
| Slides.LoadKeepsUnique | BBoardActivity.py:824-828 | Loading keeps uids unique. |
| Slides.LoadIdempotent | BBoardActivity.py:822-828 | Loading the same record twice is the same as loading it once. |
| Slides.LoadCoversUid | BBoardActivity.py:822-828 | After loading a five-field record, its uid is present. |
| Slides.LoadAllExtends | BBoardActivity.py:822-828 | A run of loads only appends, and keeps uids unique. |
| Slides.LoadAllCoversUids | BBoardActivity.py:822-828 | After a run of loads, every five-field record's uid is present. |
| Slides.LoadAllFirstWins | BBoardActivity.py:824-826 | The first record with a given new uid is the one stored. |
| Slides.DumpFields | BBoardActivity.py:807-812 | The intended five-field record, which `_load` turns back into the same slide marked non-owner. |
| Slides.DumpLoadRoundTrip | BBoardActivity.py:807-828 | Loading a dumped slide adds it, as non-owner, exactly when its uid is new. |
| Slides.ListAppend | BBoardActivity.py:809-810 | `list.append` succeeds exactly with one argument, and otherwise raises `TypeError`. |
| Slides.DumpAsWritten | BBoardActivity.py:807-812 | `_dump` as written raises `TypeError` for every slide. |
| Sync.LoadText | BBoardActivity.py:822-843 | An undecodable payload raises `ValueError`. A decoded one is merged by `_load`. |
| Sync.ShareMessages | BBoardActivity.py:939-942 | The intended answer to a join: one share text per owner slide, in list order. |
| Sync.ShareMessagesAsWritten | BBoardActivity.py:939-942 | As written, the answer to a join raises `TypeError` exactly when there is an owner slide, and sends nothing. |
| Sync.EventReceivedAsWritten | BBoardActivity.py:934-942 | An empty text raises `IndexError`. An 's' text needs exactly one ':' or raises `ValueError`, and sends nothing. A 'j' text raises once there is an owner slide. Other tags are ignored. Slides are only appended. |
| Sync.EventReceived | BBoardActivity.py:934-942 | The intended handler, which splits at the first ':'. Only an 's' text changes the slides, and only by appending. A 'j' text sends the share texts. Other tags are ignored. |
| Sync.ColonInPayloadRejected | BBoardActivity.py:936-937 | As written, any share text whose payload contains ':' is rejected with `ValueError`. |
| Sync.ShareTextLoadedAsWritten | BBoardActivity.py:936-938 | As written, a share text whose encoding has no ':' is loaded. |
| Sync.ShareTextLoaded | BBoardActivity.py:934-938 | With the first-colon split, every share text is loaded, whatever the encoding contains. |
| Sync.ReplyIsLoadAll | BBoardActivity.py:934-942 | Corrected code: receiving a peer's whole join reply equals loading its owner records in order. |
| Sync.JoinDeliversOwnedUids | BBoardActivity.py:913-942 | Corrected code: after receiving a host's join reply, the joiner holds every uid the host owns. Its uids stay unique and its own slides are untouched. |
| Sync.SendStackCb | BBoardActivity.py:962-966 | Corrected code: a text from the peer's own bus name is dropped. Any other is stored and delivered unchanged. |
| Sync.SendEvent | BBoardActivity.py:944-947 | Sends exactly the entry when a tube exists, and nothing otherwise. |
| Sync.SentTextDelivered | BBoardActivity.py:944-966 | Corrected code: a sent text is stored in the sender's tube. Its echo back to the sender is dropped and changes nothing, while another peer receives it unchanged and runs its handler on it. |
| Sync.NewTubeAsWritten | BBoardActivity.py:913-932 | As written, a D-Bus tube for this service is accepted when locally pending, but building the chat tube raises `NameError`. No tube is stored and nothing is sent. Other tubes are ignored. |
| Sync.ListTubesAsWritten | BBoardActivity.py:904-932 | As written, the listed tubes go through `_new_tube_cb` until one raises. The peer is unchanged and nothing is sent. The only exception is `NameError`, and a tube is accepted only by a call that then raises. |
| Sync.SharingNeverStarts | BBoardActivity.py:904-960 | As written, whatever tubes are listed, the peer keeps no chat tube, sends nothing, and every later `_send_event` is dropped. The listing raises `NameError` exactly when it offers a usable tube. |
| Sync.NewTube | BBoardActivity.py:913-932 | Corrected code: only a D-Bus tube for this service is taken, and accepted when locally pending. A chat tube is stored, and a waiting joiner then sends "j". |
| Sync.Receive | BBoardActivity.py:934-966 | Corrected code: a text from the peer's own bus name changes nothing. Any other is stored in the chat tube first, so when the handler raises, the peer keeps the stored text and its slides. Handled texts only append slides, and the tube ends up holding the last text through it. |
| Sync.Handle | BBoardActivity.py:934-947 | Corrected code: the handler raises exactly when `event_received_cb` does, leaving the peer with only the tube's stored text. Otherwise it only appends slides, and the tube holds the last reply sent or the received text. |
| Sync.OwnAnnouncementIgnored | BBoardActivity.py:930-932 | Corrected code: a joiner never answers its own "j". |
| Board.ShowIndex | BBoardActivity.py:463-467 | With slides, the index steps by the direction and wraps into range. Below 0 gives the last slide and past the end gives 0. With no slides it is kept. |
| Board.ShowIndexRotates | BBoardActivity.py:463-467 | Stepping forward from a valid index is rotation modulo the slide count, and stepping back undoes it. |
| Board.NextSkipsAsWritten | BBoardActivity.py:402-412 | As written, "next" from slide i shows i+2, or wraps to 0, never i+1. With two slides it stays on slide 0. "Prev" from slide 1 jumps to the last slide. |
| Board.NextIndex | BBoardActivity.py:408-412 | The intended "next": the following slide if there is one, otherwise stay. |
| Board.PrevIndex | BBoardActivity.py:402-406 | The intended "prev": the preceding slide if there is one, otherwise stay. |
| Board.NextPrevInverse | BBoardActivity.py:402-412 | The intended buttons stay in range and undo each other. |
| Board.DescriptionAsWritten | BBoardActivity.py:493-500 | The description is shown exactly when the datastore entry at the same index has one. The lookup raises `IndexError` when there is no entry at that index. It raises `TypeError` when the entry has a description but the slide's own is not a string. |
| Board.Description | BBoardActivity.py:493-500 | The intended lookup shows the slide's own description exactly when it has one. |
| Board.SlideFromEntry | BBoardActivity.py:188-209 | A starred entry becomes an owned slide with the entry's id as uid. It has a description exactly when the metadata has a non-`None` one. |
| Board.DescriptionAgreesOnLocalDeck | BBoardActivity.py:188-209 | For a deck built from the starred entries, the as-written and intended lookups agree. |
| Board.RemoteSlideDescriptionRaises | BBoardActivity.py:493 | The description lookup for a slide received from a peer raises `IndexError`. |
| Board.RemoteSlideShowRaises | BBoardActivity.py:479-493 | Showing a received slide raises. With an image field other than `None` it is `AttributeError` from `scale_simple`, and otherwise `IndexError` from the lookup. |
| Board.ReceivedImageRaises | BBoardActivity.py:479-481 | One starred entry followed by the received record `["u", [], "t", "d", "aGk="]`: showing slide 1 raises `AttributeError`. |
| Board.DropThenShowRaises | BBoardActivity.py:493-497 | After a drop has exchanged two datastore entries, showing a slide without a description whose index now holds a described entry raises `TypeError`. |
| Board.ShowSlide | BBoardActivity.py:448-500 | An empty deck shows help. Otherwise the index wraps into range. "Prev" is active unless on the first slide, and "next" unless on the last. An image that is neither `None` nor a pixbuf raises `AttributeError` before the description is looked up. Otherwise it raises exactly when the description lookup raises, with the same exception, and shows what that lookup gives. |
| Board.NextCb | BBoardActivity.py:408-412 | `_next_cb` leaves the index the double step gives. It raises exactly when it moved and `_show_slide` raised on the slide it landed on: `AttributeError` for an image that cannot be drawn, otherwise the description lookup's error. |
| Board.PrevCb | BBoardActivity.py:402-406 | `_prev_cb` leaves the index the double step back gives. It raises exactly when it moved and `_show_slide` raised on the slide it landed on: `AttributeError` for an image that cannot be drawn, otherwise the description lookup's error. |
| Board.ShowSlideIntended | BBoardActivity.py:448-500 | The intended show lands on the same index as the code, with the same buttons, and shows the slide's own description. It raises only `AttributeError`, exactly when the slide's image cannot be drawn. |
| Board.NextCbIntended | BBoardActivity.py:408-412 | The intended "next" moves to the following slide exactly once. It raises only when it moved onto a slide whose image cannot be drawn. |
| Board.PrevCbIntended | BBoardActivity.py:402-406 | The intended "prev" moves to the preceding slide exactly once. It raises only when it moved onto a slide whose image cannot be drawn. |
| Board.ShowSlideAgreesOnLocalDeck | BBoardActivity.py:188-209 | For a deck built from the starred entries, the show as written equals the intended one. |
| Board.CeilSqrt | BBoardActivity.py:529 | The least n with n*n at least the slide count. |
| Board.GridFits | BBoardActivity.py:529-535 | With at least one slide, cell sizes and margin are non-negative, and margin plus one cell fits the screen width. |
| Board.FitsIff | BBoardActivity.py:541-544 | m cells fit after the margin exactly when m is at most the column count. |
| Board.ThumbnailGrid | BBoardActivity.py:529-544 | The layout loop places cell k at column k mod c and row k div c. c is the number of cells that fit in a row. Every cell lies horizontally on screen. |
| Board.ThumbsCb | BBoardActivity.py:519-565 | Entering thumbnail mode remembers the slide, lays out the grid and resets the index. Thumbnails are created only for slides without one, with fresh sprites, so sprites stay distinct. It raises `AttributeError` exactly when a new thumbnail's image cannot be drawn. It then stops at the first such slide, with the index there and the earlier thumbnails made. In thumbnail mode nothing changes. |
| Board.SlidesCb | BBoardActivity.py:513-517 | Leaving thumbnail mode restores the remembered index, then steps it once. It raises exactly when the new slide's image cannot be drawn or its description lookup raises. |
| Board.SlidesCbAdvances | BBoardActivity.py:513-517 | Returning from thumbnails shows the slide after the remembered one. |
| Board.DropOnThumb | BBoardActivity.py:655-684 | Dropping onto a different sprite exchanges the two sprites and the two datastore entries, and keeps the slides. It raises `IndexError` with only the sprites exchanged when either index has no entry. |
| Board.DropPermutes | BBoardActivity.py:673-679 | A drop permutes the sprites and the datastore entries, and keeps the sprites distinct. |
| Board.DropTwiceRestores | BBoardActivity.py:673-679 | Repeating a successful drop restores the original order. |
| Board.ButtonRelease | BBoardActivity.py:655-689 | In thumbnail mode, a release without a press or away from a thumbnail changes nothing. Outside thumbnail mode a click is "next". |
| Board.SaveDescriptions | BBoardActivity.py:779-789 | Raises `KeyError` exactly when some owner slide is missing from the datastore. Either way it keeps the datastore's keys, touches no entry that is not an owner slide's, and changes only the "description" key. The writes made before the failing fetch are kept. |
| Board.SaveStoresDescriptions | BBoardActivity.py:779-789 | With distinct uids, every owner slide up to the first one the datastore lacks gets its description written, even when a later fetch raises. |

## Left out

- Drawing, sprites' pixels, fonts, scaling and the toolbar are left out. Only which slide is shown, the button states and where thumbnails go are kept.
- Audio-note search and playback (`_search_for_audio_note`, `play_audio_from_file`) are left out. They are datastore queries and subprocess playback, which are I/O.
- `exportpdf.py` is not part of this model: it only renders pages.
- Telepathy connection plumbing is left out (`_shared_cb`, `_joined_cb`, `ListTubes`, `TubeConnection`), because it is D-Bus I/O. Only the tube's type, service and state reach the model.
- Building the GStreamer pipelines and the capture bin (`_create_audiobin`) is left out. The pipelines are reduced to their states. `_transcodeUpdateCb` is left out too, because it only computes an unused progress value.
- `_wait_for_transcoding_to_finish` busy-waits on the main loop and is left out. Its repeated polls are the sequences that `Recorder.CleanupCalls` walks.
- Recorder.TranscodingComplete: the query answers are an input, whatever pipeline `_audioline` names. That querying a missing pipeline always fails is stated by `Recorder.NoPipelinePollRaises`, not by this contract.
- Recorder.StopRecordingAudio: the capture bin's filesink writes `output.wav` while it plays. The model does not follow the audio. The size the existence test finds is an input of the stop.
- Board.DescriptionAsWritten: the `TypeError` for a description that is not a string comes from PyGTK's `TextBuffer.set_text`. The sprite label set just before is assumed to accept any value.
- Board.ShowSlide: an image counts as drawable exactly when it is `None` or a pixbuf (`Board.Drawable`). Other objects that happen to have a `scale_simple` method are not modelled.
- Board.SlideFromEntry: a starred entry without "mime_type" leaves `mimetype` as `None`, and `mimetype[0:5]` (BBoardActivity.py:197) then raises `TypeError`. That case and the image and audio branches that follow are left out. The model starts from the entry's title and description.
- The JSON codec is an abstract pair of functions. A decoded value other than a list (where `len` may raise or count differently) is left out.
- Colors.LighterColor: luminance is compared exactly on `3R + 6G + B`, whereas Python compares floats. Two colours whose scaled sums are equal or adjacent may compare differently under floating-point rounding.
- Text.IntBase16: Python 2 also accepts whitespace between the sign and the digits, and an `L` suffix. Neither occurs in colour strings, and neither is modelled.
- Slides.DumpFields: the intended record holds the slide's pixbuf, which a real JSON encoder cannot serialise. The model treats it as one more value.
- Board.CeilSqrt: it is the exact integer ceiling of the square root. Python computes `ceil(sqrt(n))` in floating point, which agrees for any slide count that fits in memory.
- Board.DropOnThumb: indices are passed directly. The code finds them with `_spr_to_thumb`, which returns the first match, and that is the same index while sprites are distinct (`Board.DropPermutes`).
- Moving sprites back into place after a drop, `_press`/`_release` bookkeeping and `_mouse_move_cb` are left out. They only affect pixels.
- The write callbacks of `_save_descriptions_cb` are left out, because they only log. A datastore id that `datastore.get` cannot find is modelled as `KeyError`.

## Findings

| source | as written | input that shows it | evidently intended | confidence | as-written member | corrected member |
|---|---|---|---|---|---|---|
| BBoardActivity.py:809-810 | `data.append(...)` is called with five arguments, so `_dump` raises `TypeError`, and a 'j' request raises at the first owner slide. | any slide | build the five-field list | not executed | Slides.DumpAsWritten | Slides.DumpFields |
| BBoardActivity.py:937 | `text.split(':')` cuts at every ':', so a payload containing ':' fails to unpack with `ValueError`. | "s:" + any payload containing ':' | split at the first ':' only | not executed | Sync.ColonInPayloadRejected | Sync.ShareTextLoaded |
| BBoardActivity.py:402-412 | The buttons step the index, and then `_show_slide` steps it again, so "next" skips a slide. | 2 slides at index 0: "next" stays on slide 0 | step exactly once | not executed | Board.NextSkipsAsWritten | Board.NextCbIntended |
| BBoardActivity.py:493 | The description is looked up in `dsobjects` by the slide's index, so a slide received from a peer raises `IndexError`. | one starred entry plus one loaded remote slide with no image, shown at index 1 | use the slide's own description | not executed | Board.RemoteSlideDescriptionRaises | Board.ShowSlideIntended |
| BBoardActivity.py:493-497 | A drop exchanges `dsobjects` but not `slides`, so the lookup can pair a slide without a description with a described entry, and `set_text(None)` raises `TypeError`. | two starred entries, only the second described: drop thumbnail 0 on 1, then show slide 0 | use the slide's own description | not executed | Board.DropThenShowRaises | Board.ShowSlideIntended |
| BBoardActivity.py:953 | `PATH` is never defined, so `ChatTube.__init__` raises `NameError`. No chat tube is stored, the joiner's "j" is never sent, and sharing never starts. | any D-Bus tube offered for this service | define the object path and build the chat tube | not executed | Sync.SharingNeverStarts | Sync.NewTube |
