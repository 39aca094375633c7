# DeMoD camera setup: configuration compiler and security rating

A Dafny model of the pure logic in the DeMoD camera setup tool. The tool turns a camera
description into a MediaMTX `mediamtx.yml` and scores how well the host is secured. A
camera description is either a JSONC document or the single-camera web form. The model
covers these parts:

- **Comment stripping** (`Jsonc`, comments.dfy). `load_jsonc` removes comments with the
  regular expression `/\*.*?\*/|//[^\n]*` under DOTALL. Here that is a left-to-right
  scanner:
  - a block comment ends at the first `*/`, and can span lines;
  - a line comment stops before its newline;
  - an unterminated `/*` is kept.

  `json.loads` is a parameter `decode`.
- **Credentials** (`Credentials`, credentials.dfy). `get_auth_config` resolves an
  `env:NAME` password against the environment, which is a map. It then emits the
  `readUser:` / `readPass:` lines.
- **The compiler** (`MediaConfig`, mediaconfig.dfy). `write_yml` validates every camera in
  order, then renders the header and one `cam{i}` path entry per camera. The file system
  is the set of existing paths. The file write is the document returned, and a failed
  compile leaves the prior file untouched. The module also holds `parse_yml_auth`'s
  substring probe.
- **Device listing** (`Devices`, devices.dfy). The line filter of `get_devices` works on
  the `v4l2-ctl` output, which is given as a parameter.
- **Rating** (`Rating`, rating.dfy). `calculate_rating` has four opaque probe results and
  the questionnaire answers. Its Low / Moderate / High bands are shared by the GET and
  POST pages.
- **The web form** (`WebForm`, webform.dfy). The `do_POST` block reads the query fields,
  chooses between the JSONC camera list and the form camera, and compiles the result.

Python's behaviour on strings is written out in `Text` (text.dfy):
- `strip` and `isspace`, `isdigit`, `str` of an integer;
- `startswith` and `in`, `splitlines`.

Decoded JSON values and their truthiness, `str` and `dict.get` are in `Values`
(values.dfy). `Results` holds `Option` and `Result`. `Errors` has one constructor per
`ValueError` the code raises. `Malformed` stands for the `AttributeError` and `TypeError`
cases of ill-typed values. `Unrenderable` marks values whose Python `repr` is not modelled.

Where the form's own wording and the code differ, the model follows the code:
- the framerate input is declared `min="1"` (config.py:88), but the handler and the
  compiler check only `isdigit`, so `"0"` (or `0`) is accepted;
- the form calls the single camera the choice "if no JSONC" (config.py:78), but the form
  camera is also used when JSONC text is given and its `cams` list is empty or missing.

A camera whose `auth` has only a user or only a password is compiled without credentials
and without error (utils.py:155-157), unless the password is an `env:` reference that does
not resolve, which is an error (utils.py:150-154).

## Model

| member | source | states |
|---|---|---|
| Jsonc.FindCloseIsFirst | utils.py:128 | the position found for `*/` is the first closer at or after the start, and none exists when none is found (the lazy `.*?`) |
| Jsonc.FindNewlineIsFirst | utils.py:128 | a line comment runs up to the first newline, or to the end of the text (`[^\n]*`) |
| Jsonc.Scan | utils.py:128 | one scan step consumes at least one character and keeps either nothing or exactly the character it consumed |
| Jsonc.ScanCases | utils.py:128 | one scan step removes text exactly at a `//`, or at a `/*` with a `*/` after it; a block comment step ends just after that `*/`, and a line comment step stops at a newline or the end of the text |
| Jsonc.Strip | utils.py:128 | stripping never lengthens the text |
| Jsonc.StripIsSubsequence | utils.py:128 | the stripped text is a subsequence of the input: comment removal only deletes characters |
| Jsonc.StripCommentFree | utils.py:128 | text in which no `/` starts a `//` or `/*` is returned unchanged |
| Jsonc.StripWithoutSlash | utils.py:128 | text containing no `/` is returned unchanged |
| Jsonc.StripBlockComment | utils.py:128 | `a /* c */ b` strips to `a` followed by the stripped `b`, for a comment body `c` holding no `*/` and spanning any number of lines |
| Jsonc.StripLineComment | utils.py:128 | `a // c \n b` strips to `a`, then the newline, then the stripped `b`: the line comment keeps its newline |
| Jsonc.StripTrailingLineComment | utils.py:128 | a line comment with no newline after it runs to the end of the text |
| Jsonc.StripUnterminatedBlock | utils.py:128 | a `/*` with no `*/` anywhere after it opens no comment: after opener-free text `a`, `a /* c` strips to `a`, the `/*`, then the stripped `c` |
| Jsonc.LineCommentInsideUnterminatedBlock | utils.py:128 | inside an unterminated block a line comment still counts: `/* x // y` strips to `/* x` |
| Jsonc.StripCutsUrlInString | utils.py:128 | removal is lexical: `{"url": "http://cam"}` loses everything from the `//` on, closing quote included |
| Jsonc.LoadJsonc | utils.py:127-131 | decoding succeeds exactly when the decoder accepts the stripped text, and yields its value; otherwise it is a decode error |
| Jsonc.LoadJsoncCommentFree | utils.py:128-129 | for text without comment openers, loading is decoding the raw text |
| Jsonc.LoadJsoncFile | utils.py:122-133 | a missing file is a not-found error naming the path; otherwise the file's contents are loaded |
| Credentials.ResolveSecret | utils.py:148-154 | a password without `env:` is kept verbatim; `env:NAME` becomes the value of `NAME`, and is an error naming `NAME` when it is unset or empty |
| Credentials.EnvReferenceRoundTrip | utils.py:150-154 | prefixing `env:` to a name and resolving reads back that variable, or fails with that name |
| Credentials.ResolveAuth | utils.py:148-157 | the password is resolved before the user is looked at; a missing or empty user or resolved password yields no credential and no error; a credential has both parts non-empty |
| Credentials.AuthConfig | utils.py:146-157 | the result is exactly the resolution error when resolution fails; otherwise it is `""` when no credential results, and exactly `    readUser: u\n    readPass: p\n` for the resolved user `u` and password `p` |
| Credentials.AuthLinesNameKeys | utils.py:155-156 | the emitted lines contain both `readUser:` and `readPass:` |
| Credentials.AuthLinesSplit | utils.py:156 | for a user and password without line breaks, the credential text is exactly two lines, `    readUser: u` and `    readPass: p` |
| Credentials.LiteralCredentialEmitted | utils.py:148-156 | a plain user with a literal password emits exactly `    readUser: u\n    readPass: p\n` |
| Credentials.UnsetSecretIgnoresUser | utils.py:148-154 | an unset `env:` variable is an error whatever the user is, empty included |
| Credentials.PartialAuthDropped | utils.py:148-157 | a user without a password gives `""` and no error; so does a password without a user, whether literal or an `env:NAME` whose variable is set |
| MediaConfig.ValidateCamera | utils.py:170-180 | a camera validates exactly when its device exists, its framerate renders as digits, its bitrate is truthy and its auth resolves; the failures come in the source's check order, and an auth failure is reported as the resolution's own error; the auth dict is resolved before the bitrate is rendered, so an unrenderable bitrate is reported only for an auth that resolves; the result carries the device, framerate, bitrate and credential read from the entry |
| MediaConfig.AuthFailsBeforeBitrateRender | utils.py:177-181 | an entry with an existing device, a list as bitrate and an unset `env:` password fails with the unset variable, as `get_auth_config` runs before the entry text is formatted |
| MediaConfig.EmptyEntryTakesDefaults | utils.py:171-180 | an empty entry takes the defaults `/dev/video{i}`, `30`, `800k` and no credential |
| MediaConfig.ZeroFramerateAccepted | utils.py:174-176 | the check is `isdigit`, not positivity: `"0"` and `0` pass, while `-1`, `""` and `None` fail |
| MediaConfig.Collect | utils.py:170-180 | the loop stops at the first failing camera and reports its error; otherwise it keeps every camera in order, one per entry |
| MediaConfig.WriteYml | utils.py:159-192 | the compile succeeds exactly when every camera validates, and otherwise reports the first failing camera's error; on success the document is the header plus the entries of the validated cameras, one per input camera; an empty camera list writes the header alone |
| MediaConfig.WriteFile | utils.py:170-192 | a failed compile leaves the prior file unchanged; a successful one replaces it with the document |
| MediaConfig.EntriesInOrder | utils.py:169-181 | the `paths` text is exactly the entries `cam{from}`, `cam{from+1}`, … in input order, with nothing between them |
| MediaConfig.EntryFields | utils.py:181 | each entry's init command holds the camera's framerate and device, and its bitrate; it publishes to `/cam{i}` and is followed by `runOnInitRestart: yes` |
| MediaConfig.EntryText | utils.py:181 | each `cam{i}` entry is exactly the f-string of the source: the ffmpeg command with the framerate, device and bitrate, publishing to `/cam{i}`, then `runOnInitRestart: yes`, then the credential lines |
| MediaConfig.EmitLayout | utils.py:182-190 | the document is the header, then the entries concatenated in order, then a final newline; it always starts with the header |
| MediaConfig.CredentialEnablesAuthProbe | utils.py:53-56 | when any camera has a credential, the written document passes the `readUser:` / `readPass:` probe |
| MediaConfig.AuthProbe | utils.py:53-57 | the probe reports protection exactly when the file exists and contains both `readUser:` and `readPass:`; a missing file is unprotected |
| Devices.DeviceLines | utils.py:68 | the comprehension keeps at most one path per line of the listing |
| Devices.DeviceLinesArePaths | utils.py:68 | every kept line is stripped and starts with `/dev/video` |
| Devices.DeviceLinesMembership | utils.py:68 | a path is kept exactly when some line of the listing strips to it and starts with `/dev/video` |
| Devices.ListDevices | utils.py:66-71 | the list is never empty and holds only device paths; a failed command gives `/dev/video0`; a listing with device lines gives exactly those lines |
| Devices.ListedDevices | utils.py:68-69 | when the output names some device, the list holds exactly the stripped device lines |
| Devices.NothingListed | utils.py:69 | when no line names a device, the list is `/dev/video0` alone |
| Rating.Rating | utils.py:102-106 | the rating never exceeds 100, and is at least 0 when no answer is negative |
| Rating.SumBinary | utils.py:103 | 0/1 answers sum to between 0 and their number |
| Rating.RatingWithoutAnswers | utils.py:102-106 | with no answers the rating is the base score `25 × passed checks`, capped at 100 |
| Rating.LowBaseNeverHigh | utils.py:104-106 | with at most one passed check, 0/1 answers add at most 50 and the rating stays below 80 |
| Rating.AllYesWithGoodBaseIsFull | utils.py:102-106 | with at least two passed checks, all-yes answers (at most 100 of them) give 100 |
| Rating.RatingMonotoneInAnswers | utils.py:103-106 | raising answers never lowers the rating |
| Rating.RatingMonotoneInChecks | utils.py:102-106 | passing more checks never lowers the rating, across the change of unit from `50 // n` to `100 // n` included |
| Rating.RatingExamples | utils.py:102-106 | no passed check with answers `[1,1,1]` gives 48; four passed checks with `[0,0,0]` give 100 |
| Rating.LabelOf | config.py:42-47 | Low exactly below 50, High exactly from 80, Moderate in between |
| Rating.LabelMonotone | config.py:42-47 | a higher rating is never in a lower band |
| Rating.PageMessage | config.py:41-47 | the configuration page shows the rating followed by the page's wording of the rating's band |
| Rating.ResultMessage | config.py:168-174 | the result page shows the rating followed by the result page's wording of the rating's band |
| Rating.MessagesShareThresholds | config.py:41-47 | the page message and the result message start with the same `Security Rating: r/100`, and are equal exactly when the rating is in the Moderate band |
| Rating.PageRatingIsQuarters | config.py:38-40 | the rating on page load is `25 ×` the passed probes: one of 0, 25, 50, 75, 100 |
| WebForm.ReadRequest | config.py:117-138 | each text field is the stripped value when its key is present and the handler's default (`""`, `/dev/video0`, `30`, `800k`) when absent, and is stripped either way; each checkbox is set exactly when its key is present (config.py:163-165 for the three questions) |
| WebForm.CameraDictFields | config.py:141 | the form camera has exactly the keys `device`, `framerate`, `bitrate` and `auth`, and `write_yml` reads back the form's values from them |
| WebForm.FormAuth | config.py:132-140 | auth is `{}` unless `enable_auth` is present; then a missing user, and after it a missing password, is an error; otherwise it holds both |
| WebForm.FormCamera | config.py:122-141 | an empty device, a non-digit framerate (no fallback to 30), an empty bitrate and missing credentials are errors, checked in that order; the camera is built exactly when the form is complete |
| WebForm.FormCameras | config.py:141 | the form path yields exactly one camera, or the form's error |
| WebForm.JsoncCams | config.py:117-120 | empty JSONC text gives no cameras; otherwise the stripped text is decoded, a rejection is a decode error, a decoded object gives its `cams` value (`[]` when absent), and any other decoded value is malformed |
| WebForm.SelectCams | config.py:116-141 | a non-empty JSONC camera list is passed on unchanged; otherwise the form camera is used; a decode error wins; a chosen list is never empty |
| WebForm.FormPathWithoutJsonc | config.py:118-141 | without JSONC text the form alone decides |
| WebForm.JsoncTakesPrecedence | config.py:118-121 | a non-empty JSONC list is used whatever the form fields say |
| WebForm.HandlePost | config.py:116-143 | a selection error is the handler's error; otherwise the handler succeeds exactly when every selected camera validates, writing the header and one entry per validated camera, and fails with the first failing camera's error; a success without JSONC text implies a complete form |
| WebForm.FormCameraOnlyFailsOnDeviceOrSecret | config.py:122-143 | a complete form camera can fail in `write_yml` only on a missing device or an unset `env:` password |
| WebForm.FormCameraWithCredential | config.py:132-143 | a complete form with auth and a literal password, for an existing device, compiles to a camera carrying that credential |
| WebForm.FormAuthEnablesProbe | config.py:132-143 | such a form compiles to a document that the auth probe reports as protected |
| WebForm.FormAnswers | config.py:162-166 | three 0/1 answers, each 1 exactly when its checkbox is present |
| WebForm.ResultRatingBands | config.py:161-174 | the result rating lies in 0..100; it is 100 with two passed probes and every box ticked; it is never High with at most one passed probe |
| Text.Trim | utils.py:68 | only outer whitespace is removed: the result occurs in the input with nothing but whitespace before and after it, has no whitespace at either end, and is empty exactly when the input is whitespace only |
| Text.ContainsIff | utils.py:56 | the substring test holds exactly when the text is some `x + t + y` |
| Text.NatStrRoundTrip | utils.py:171 | the decimal rendering of a number reads back as that number |
| Text.NatStrInjective | utils.py:181 | distinct camera indices give distinct `cam{i}` names |
| Text.SplitLines | utils.py:68 | each line of the output holds no line break |
| Text.SplitLinesSingle | utils.py:68 | a non-empty text without line breaks is one line |
| Text.SplitLinesBreak | utils.py:68 | a line ended by `\n` or `\r\n` is the first line, and splitting goes on after the break |
| Values.Render | utils.py:175 | `str` of a scalar: a string renders as itself, and a rendering that is all digits comes from a string or a non-negative integer |

## Left out

- File and process I/O: reading the JSONC file, writing `mediamtx.yml`, `run_command` and the `v4l2-ctl` call. File existence is a set, the file system for `load_jsonc` is a map, the write is the returned document, and the command output is an `Option` that is `None` when the command fails.
- `json.loads`: it is the `decode` parameter. JSON numbers with a fraction or exponent have no `Value`.
- `security_checks`: the four probes (`getuid`, the `video` group, `ufw status`, the auth probe) are opaque booleans in `Rating.Checks`. The auth probe itself is modelled as `MediaConfig.AuthEnabled`.
- `urllib.parse.parse_qs`: the query is the map of each field's first value. Blank values are dropped by the parser, so a blank field reads as absent and takes its default.
- Values.Render: Python's `repr` of a list or dict is not modelled. Where `write_yml` would render a non-empty list or dict as a bitrate or user, the model reports `Unrenderable`.
- IsDigits: Python's `isdigit` also accepts non-ASCII digits; the model accepts ASCII `0`–`9` only.
- MediaConfig.ValidateCamera: a non-string `device` is `Malformed`. Python would treat an integer as a file descriptor in `os.path.exists`.
- WebForm.SelectCams: a truthy `cams` value that is not a list is `Malformed`, and so is a decoded configuration that is not an object. Python raises an `AttributeError` or a `TypeError` there: `config.get` on a non-dict fails at once (config.py:120), an integer or boolean `cams` fails in `enumerate`, and the entries of a string or dict `cams` fail at `cam.get`.
- The response page: the stream URLs, the security status list and the HTML. The authenticated stream-URL branch at config.py:147 evaluates `{{}}`, a set holding a dict, which raises `TypeError` after the file has been written.
- The `MEDIAMTX_PROC` start/stop lifecycle (config.py:150-158): process supervision.
- security_checker.py: the interactive setup tool, with input loops and process launch. It repeats the label thresholds modelled here; its fallback of a non-digit framerate to `30` (security_checker.py:87-89) is not modelled. The compiler's default of `30` for a missing framerate (utils.py:174) is.
- Determinism of the output is not stated separately: every member is a function of its inputs.
