# Resume–job match analyser, modelled in Dafny

The analyser has two halves. The backend reads a PDF resume into plain
text, one page after another. It sends that text and a job description
to a local language model and returns the model's reply. The Streamlit
front end receives the reply inside the HTTP response and tries hard to
read it as JSON. It picks the payload and decodes it if it is a string.
It removes one level of wrapping and renames legacy field names. It
warns about missing fields and parses the match percentage into a
number, which a coloured gauge shows. It then lists the missing skills
and the suggested projects, dropping blank entries.

This project models those steps and proves what they guarantee:

- `wrappers.dfy`: `Option`.
- `pystr.dfy`: the Python string operations the code relies on:
  - `str.strip()` over the full `isspace` set;
  - `str.replace('%', '')`;
  - `int()` on a base-10 literal, with sign and underscores;
  - `str()` of an integer.
- `json.dfy`: JSON values. A dict is a list of entries in insertion
  order. `get`, `in`, `pop` and item assignment are defined on it.
- `analyze.dfy`, module `Backend`: `convert_to_text`, the two-turn chat
  request, and `analyze` (backend/analyze.py).
- `streamlit.dfy`, module `Streamlit`: the response handling of
  frontend/streamlit.py, lines 269-364, and the gauge, lines 208-220.
  - The payload, decode and unwrap steps are functions.
  - The renaming loop is a method. It changes a `Dict` object in place
    and is proved against the function `Normalized`.
  - `HandleResponse` follows the handler step by step and is proved
    equal to the function `Outcome`.
- `scenario.dfy`: end-to-end properties. They start from the body the
  endpoint sends, `{"analysis_result": text}` (backend/main.py line 20),
  and end with the view the page shows.

Things the code depends on but does not define are parameters:

- `json.loads` is `decode: string -> Option<Json>`. `None` stands for a
  `JSONDecodeError`.
- `response.json()` is `body: Option<Json>`.
- `ollama.chat` is `chat: ChatRequest -> ChatOutcome`.
- The PDF reader is the sequence of what `extract_text()` gave for each
  page.

The system prompt (backend/analyze.py lines 4-22) has `{all_text}` and
`{job_desc}` placeholders and writes its literal braces doubled, as
`{{` and `}}`. That shape is what `str.format()` expects, yet `.format()`
is never called on it. The prompt is sent as written, so the model sees
the placeholders and the doubled braces literally. The resume and the
job description reach the model only through the user turn.
`Backend.SystemTurnUnformatted` states that the placeholders stay
literal.

## Model

| member | source | states |
|---|---|---|
| PyStr.TrimLeft | frontend/streamlit.py:307 | `lstrip()` gives a suffix of the input. The first character it keeps is not whitespace. |
| PyStr.TrimLeftSpaces | frontend/streamlit.py:307 | Every character `lstrip()` drops is whitespace. |
| PyStr.TrimRight | frontend/streamlit.py:307 | `rstrip()` gives a prefix of the input. The last character it keeps is not whitespace. |
| PyStr.TrimRightSpaces | frontend/streamlit.py:307 | Every character `rstrip()` drops is whitespace. |
| PyStr.Strip | frontend/streamlit.py:307 | `strip()` gives text that neither starts nor ends with whitespace, and is no longer than its input. |
| PyStr.StripSlice | frontend/streamlit.py:333 | What `strip()` keeps is one contiguous slice of the input. Everything before it and everything after it is whitespace. |
| PyStr.StripEmpty | frontend/streamlit.py:333-334 | `str(x).strip()` is empty exactly when every character is whitespace. These are exactly the items `if skill_str:` skips. |
| PyStr.StripTrimmed | backend/analyze.py:45 | Text without surrounding whitespace is its own strip. |
| PyStr.StripIdempotent | backend/analyze.py:45 | Stripping twice is the same as stripping once. |
| PyStr.Without | frontend/streamlit.py:307 | `replace('%', '')` leaves no `%` and never makes the text longer. |
| PyStr.WithoutAbsent | frontend/streamlit.py:307 | Text without `%` is unchanged by the replacement. |
| PyStr.WithoutAppend | frontend/streamlit.py:307 | The replacement works on each part of a concatenation separately. |
| PyStr.ParseInt | frontend/streamlit.py:307 | `int()` succeeds exactly on an optional `+` or `-` followed by digit groups: digits, with single underscores only between digits. The model has no digit limit. A result ends in a digit, and a negative result needs a leading `-`. |
| PyStr.ParseLeadingZero | frontend/streamlit.py:307 | A leading zero does not change the value `int()` reads. |
| PyStr.ParseUnderscore | frontend/streamlit.py:307 | An underscore between two digit groups does not change the value `int()` reads. |
| PyStr.ParseSigned | frontend/streamlit.py:307 | A leading `+` leaves the value as it is, and a leading `-` negates it. |
| PyStr.DigitsOf | frontend/streamlit.py:307 | `str(n)` of a natural number is non-empty, all digits, and has no leading zero. |
| PyStr.Decimal | frontend/streamlit.py:307 | `str(n)` of an integer ends in a digit. It starts with a digit or, for a negative number, with `-`. |
| PyStr.DigitsOfValue | frontend/streamlit.py:307 | The digits `str(n)` prints have the value `n`. |
| PyStr.ParseDecimal | frontend/streamlit.py:307 | `int(str(n)) == n` for every integer `n`. |
| PyStr.DecimalPlain | frontend/streamlit.py:307 | `str(n)` has no surrounding whitespace and contains no `%`. |
| Json.Truthy | frontend/streamlit.py:273 | A value is falsy exactly when it is `None`, `False`, `0`, `0.0`, `""`, `[]` or `{}`. |
| Json.Lookup | frontend/streamlit.py:273 | `d.get(k)` gives a value only from an entry with key `k`. It gives nothing exactly when no entry has key `k`. |
| Json.Get | frontend/streamlit.py:306 | `d.get(k, default)` gives a value stored under `k` when the key is present, else the default. |
| Json.LookupEntry | frontend/streamlit.py:282 | In a dict with unique keys, looking up an entry's key finds that entry's value. |
| Json.Remove | frontend/streamlit.py:294 | `pop(k)` removes `k` and leaves every other lookup unchanged. It keeps only existing entries, is a no-op when `k` is absent, and keeps keys unique. |
| Json.RemoveAt | frontend/streamlit.py:294 | In a dict with unique keys, `pop` takes out exactly the entry holding the key. The other entries keep their order. |
| Json.Assign | frontend/streamlit.py:294 | `d[k] = v` makes `k` look up `v` and leaves every other lookup unchanged. A new key is appended at the end. The size grows only for a new key, and keys stay unique. |
| Backend.PageChunk | backend/analyze.py:30-32 | A page with non-empty text adds that text and a newline. A page with `None` or empty text adds nothing. |
| Backend.ConvertToText | backend/analyze.py:26-33 | The loop's result is `AllText(pages)`, the chunks of all pages in page order. |
| Backend.AllTextAppend | backend/analyze.py:29-32 | The text of two runs of pages is the first run's text followed by the second's. |
| Backend.AllTextSplit | backend/analyze.py:29-32 | Cutting the pages at any point splits the text at the matching point. |
| Backend.PageTextAt | backend/analyze.py:29-32 | A page with text appears verbatim, followed by a newline, between the text of the pages before it and the text of the pages after it. |
| Backend.SkippedPage | backend/analyze.py:31 | A page without text, wherever it stands, changes nothing. |
| Backend.AllTextEmpty | backend/analyze.py:28-33 | The resume text is empty exactly when no page yields text. |
| Backend.AllTextEndsWithNewline | backend/analyze.py:32 | A non-empty resume text ends with a newline. |
| Backend.AllTextLength | backend/analyze.py:32 | The text's length is the sum, over pages with text, of each text's length plus one. |
| Backend.UserContent | backend/analyze.py:42 | The user turn is `Resume:\n`, then the resume text, then `\n\nJob Description:\n`, then the job description. Each part is verbatim and at its place. |
| Backend.Request | backend/analyze.py:37-43 | The request has model `mistral:latest` and temperature 0.3. It has exactly two turns: the system prompt first, then the user content. |
| Backend.ReplyContent | backend/analyze.py:45 | A reply without `message` or without `content` gives the empty string. Otherwise the reply's content is given. |
| Backend.Analyze | backend/analyze.py:35-47 | A reply gives its content stripped. A raised call gives `❌ Ollama Error: ` followed by the error's text. `analyze` never raises. |
| Backend.SystemTurnUnformatted | backend/analyze.py:4-22 | The system turn holds the literal `{all_text}` and `{job_desc}` at their places, whatever the inputs. |
| Backend.MarkerIsAmbiguous | backend/analyze.py:45-47 | For a non-empty error text `e` without surrounding whitespace, a model reply of `❌ Ollama Error: e` returns the same string as a call that raised `e`. |
| Backend.MarkerMeansRaisedOrMimic | backend/analyze.py:45-47 | A result that starts with the error marker came from a raised call, or from a reply whose stripped content starts with the marker. |
| Streamlit.SelectPayload | frontend/streamlit.py:273 | The payload is `analysis_result` if that value is truthy. Otherwise it is `result` if that is truthy. Otherwise it is the whole response. |
| Streamlit.DecodePayload | frontend/streamlit.py:275-278 | A string payload is decoded. Any other payload is used as it is. |
| Streamlit.Unwrap | frontend/streamlit.py:280-284 | A dict with `analysis_result` becomes that value. Otherwise a dict with `result` becomes that value. Anything else is kept. Presence of the key decides, and well-formedness is kept. |
| Streamlit.UnwrapOnlyOnce | frontend/streamlit.py:280-284 | Only one level of wrapping is removed. |
| Streamlit.UnwrapPrefersAnalysisResult | frontend/streamlit.py:281-284 | `analysis_result` wins over `result`, in either order of the entries. |
| Streamlit.KeyMapDisjoint | frontend/streamlit.py:287-291 | No name occurs twice among the legacy and canonical names of `key_map`. |
| Streamlit.RenameOne | frontend/streamlit.py:293-294 | Legacy present and canonical absent: the legacy entry is removed and its value is appended under the canonical name. Otherwise the dict is unchanged. Lookups change accordingly, and keys stay unique. |
| Streamlit.Renamed | frontend/streamlit.py:292-294 | Running the loop over any prefix of the pairs keeps keys unique. |
| Streamlit.RenamedUntouched | frontend/streamlit.py:292-294 | A key that belongs to no pair keeps its value, or its absence. |
| Streamlit.RenamedPair | frontend/streamlit.py:292-294 | The two keys of each pair end up as one rename step on the original dict would leave them. |
| Streamlit.LegacyKeyMoved | frontend/streamlit.py:293-294 | A legacy key present without its canonical key: afterwards the canonical key holds the old value and the legacy key is gone. |
| Streamlit.CanonicalKeyKept | frontend/streamlit.py:293 | A canonical key already present is never overwritten, and its legacy key stays as it was. |
| Streamlit.NeitherKeyAppears | frontend/streamlit.py:293 | When neither name of a pair is present, neither appears. |
| Streamlit.OtherKeysUntouched | frontend/streamlit.py:292-294 | Keys outside `key_map` keep their lookups. |
| Streamlit.NormalizedSettled | frontend/streamlit.py:292-294 | After the loop, no pair has its legacy key present with its canonical key absent. |
| Streamlit.RenamedSettled | frontend/streamlit.py:292-294 | A dict with nothing to rename is left exactly as it is. |
| Streamlit.NormalizeIdempotent | frontend/streamlit.py:292-294 | Renaming twice gives the same dict as renaming once, including its order. |
| Streamlit.LegacyRenamedInOrder | frontend/streamlit.py:292-294 | A dict holding only legacy names, in `key_map` order: after `k` pairs, the first `k` entries have moved to the end under their canonical names, in order. |
| Streamlit.AllLegacyNormalized | frontend/streamlit.py:287-294 | All-legacy input becomes exactly the canonical names, in `key_map` order. |
| Streamlit.Dict.Pop | frontend/streamlit.py:294 | `pop` returns the stored value. The entries become `Remove` of the old entries, and keys stay unique. |
| Streamlit.Dict.Put | frontend/streamlit.py:294 | Item assignment makes the entries `Assign` of the old entries, and keys stay unique. |
| Streamlit.NormalizeKeys | frontend/streamlit.py:292-294 | The in-place loop leaves the dict equal to `Normalized` of its old entries, with keys still unique. |
| Streamlit.MissingAmong | frontend/streamlit.py:297 | A field is listed exactly when it is among the fields and is absent or `None`. The list keeps the fields' order. |
| Streamlit.MissingFields | frontend/streamlit.py:296-297 | The same, for the three required fields in their fixed order. |
| Streamlit.MissingFieldsEmpty | frontend/streamlit.py:297-298 | No warning exactly when every required field is present and not `None`. |
| Streamlit.ScoreText | frontend/streamlit.py:307 | `str(v)` is the string itself for a string and `str(n)` for an integer. Floats, lists and dicts print as text `int()` rejects. |
| Streamlit.ScoreOf | frontend/streamlit.py:305-309 | The score is what `int()` reads from `str(v)` with `%` deleted and whitespace stripped. It is 0 when `str(v)` cannot be a number or `int()` raises. |
| Streamlit.MatchScore | frontend/streamlit.py:306-309 | A missing `match_percentage` scores 0. A present one scores by `ScoreOf` of its value. |
| Streamlit.ScoreOfPercent | frontend/streamlit.py:305-309 | A score written as asked, `"<n>%"`, parses to `n`. |
| Streamlit.WithoutSuffix | frontend/streamlit.py:307 | Replacing `%` in digits followed by `%` gives back the digits. |
| Streamlit.ScoreOfInt | frontend/streamlit.py:305-309 | An integer score is taken as it is. |
| Streamlit.ScoreOfWord | frontend/streamlit.py:305-309 | A value that prints as trimmed text without `%` and not ending in a digit makes `int()` raise, and gives 0. |
| Streamlit.ScoreOfNull | frontend/streamlit.py:305-309 | `null` prints as `None` and gives 0. |
| Streamlit.ScoreOfBool | frontend/streamlit.py:305-309 | A boolean prints as `True` or `False` and gives 0. |
| Streamlit.WithoutAround | frontend/streamlit.py:307 | `%` signs before and after the number are all removed. |
| Streamlit.StripPadded | frontend/streamlit.py:307 | One space on each side of trimmed text is stripped. |
| Streamlit.ScoreIgnoresPercentSigns | frontend/streamlit.py:307 | `" %<n>% "` still parses to `n`. |
| Streamlit.Clamp | frontend/streamlit.py:209-210 | The gauge score lies in 0..100. It equals the score when that is in range, 0 below the range and 100 above it. |
| Streamlit.BandOf | frontend/streamlit.py:215-220 | Green exactly from 80, orange exactly from 60 to 79, red exactly below 60. |
| Streamlit.BandMonotone | frontend/streamlit.py:209-220 | A higher score never gets a worse band. |
| Streamlit.RenderGauge | frontend/streamlit.py:208-220 | The score drawn is the clamped score. Its band, with the band's stroke colour and emoji, is chosen from the clamped value. |
| Streamlit.EntryOf | frontend/streamlit.py:333 | A string item shows stripped. No item other than a string is ever blank. |
| Streamlit.Rendered | frontend/streamlit.py:332-335 | No drawn entry is blank, and there are never more entries than items. |
| Streamlit.RenderedAppend | frontend/streamlit.py:332-335 | Filtering works item by item: two runs draw as the first's entries followed by the second's. |
| Streamlit.RenderedKeepsAll | frontend/streamlit.py:332-335 | When no item is blank, every item is drawn, in order. |
| Streamlit.RenderedBlankItem | frontend/streamlit.py:333-334 | A whitespace-only string item draws nothing. |
| Streamlit.RenderedDropsBlank | frontend/streamlit.py:332-335 | Removing a blank string item, wherever it stands, changes nothing that is drawn. |
| Streamlit.Iterated | frontend/streamlit.py:332 | `for x in v` visits a list's items, a string's characters, or a dict's keys in order. It raises for numbers, booleans and `None`. |
| Streamlit.ListingOf | frontend/streamlit.py:323-337 | A falsy value shows the "nothing missing" message. A non-empty list shows its rendered items. A truthy string lists its characters and a truthy dict its keys, rendered. A truthy number or boolean raises. |
| Streamlit.HandleResponse | frontend/streamlit.py:269-350 | The handler, run step by step with the dict renamed in place, gives exactly `Outcome` of the status, the body and the decoder. |
| Streamlit.RenderFields | frontend/streamlit.py:296-349 | The warning, the score, the gauge and the two listings give exactly `Render` of the normalised dict. |
| Scenario.Envelope | backend/main.py:20 | The endpoint's body is a dict whose `analysis_result` is the text and which has no `result`. |
| Scenario.NonEmptyTextIsDecoded | frontend/streamlit.py:273-278 | A non-empty analysis text is decoded. The outcome is that of the decoded value, unwrapped and renamed. |
| Scenario.EmptyTextIsUnexpected | frontend/streamlit.py:273-284 | An empty analysis text makes the whole body the payload. Unwrapping yields `""`, and the page shows an unexpected error. |
| Scenario.EmptyReplyIsUnexpected | backend/analyze.py:45 | A reply without a message or content, or with whitespace-only content, becomes the empty text, and so an unexpected error on the page. |
| Scenario.FailedCallIsBadJson | backend/analyze.py:46-47 | A failed model call whose marked text does not decode shows "Could not parse JSON". |
| Scenario.ListingOfItems | frontend/streamlit.py:323-337 | The listing used for a list is, for every list, what `ListingOf` gives for it, and a list never raises. |
| Scenario.CanonicalLookups | backend/analyze.py:16-20 | The requested shape holds each of its three fields. It holds no legacy name and no wrapper key. |
| Scenario.CanonicalNormalized | frontend/streamlit.py:292-294 | The requested shape has nothing to rename. |
| Scenario.CanonicalComplete | frontend/streamlit.py:296-298 | The requested shape raises no missing-fields warning. |
| Scenario.CanonicalScore | frontend/streamlit.py:305-309 | The requested shape's score is the number before its `%`. |
| Scenario.CanonicalListings | frontend/streamlit.py:323-347 | The requested shape's two lists are drawn item by item. |
| Scenario.CanonicalReport | frontend/streamlit.py:269-350 | A reply decoding to the requested shape is displayed with no warning, its number as score, clamped to 0..100 on the gauge, and its lists minus blank items. |
| Scenario.LegacyNamesNormalized | frontend/streamlit.py:287-294 | `match_score`, `missing` and `projects` come out as the canonical names, in the canonical order. |
| Scenario.DecodedPayloadSameAsText | frontend/streamlit.py:273-278 | A payload that is already a dict is shown just as the same dict sent as JSON text would be. |
| Scenario.RenderedSingle | frontend/streamlit.py:333-335 | A trimmed non-empty string item is drawn as itself. |
| Scenario.OnePageText | backend/analyze.py:29-33 | A single page with text gives that text and a newline. |
| Scenario.ReplyKept | backend/analyze.py:45 | A reply with no surrounding whitespace is returned unchanged. |
| Scenario.RequestedShapeDisplayed | backend/main.py:18-20 | From `analyze` to the page: a reply in the requested shape is displayed as the report it holds. |
| Scenario.ExampleReplyDisplayed | backend/main.py:18-20 | The example reply `{"match_percentage":"66%","missing_skills":["Kubernetes"],"suggested_projects":["Deploy a service with Kubernetes"]}` shows score 66 in the orange band, the skill "Kubernetes" and the project "Deploy a service with Kubernetes", whatever the resume and job description. `json.loads` is assumed to read that reply as the dict it spells. |
| Scenario.ExampleItems | frontend/streamlit.py:332-335 | The example skill and project are each drawn as written. |
| Scenario.OnePageExample | backend/main.py:18-20 | A one-page resume answered with the example reply: the page shows 66 in the orange band, "Kubernetes" and "Deploy a service with Kubernetes". `json.loads` is assumed to read the reply as the dict it spells. |

## Left out

- Page layout, CSS, the Lottie animation, the debug panel, and the
  spinner. They only draw and never decide anything. The `debug_mode`
  output is left out for the same reason.
- The gauge's SVG geometry (circumference and dash offset, floating
  point). Only the clamp and the colour band are modelled. The stroke
  colours and emoji are given per band.
- The input guard at line 250 and its warning at line 368. The model
  starts from a response that has already arrived.
- `requests.post` and its timeout and connection errors (lines 258 and
  359-362). The network is left out, so there is no response for them
  to affect.
- The body of the API error message (line 357). Only the status is kept.
- PyPDF2. A page is modelled as what `extract_text()` returned for it.
- `ollama.chat` is a parameter. Its reply is modelled as an optional
  `message` holding an optional `content`.
- `json.loads` and `response.json()` are parameters. Their results are
  assumed well formed, meaning every dict has unique keys, as Python
  dicts do. A `JSONDecodeError` from `response.json()` is taken to be the
  `json.JSONDecodeError` the handler catches. The decoder fails only with
  `JSONDecodeError`. Its other exceptions are not modelled: `ValueError`
  for an integer literal over 4300 digits and `RecursionError` for deep
  nesting. The outer `except Exception` (lines 363-364) would turn
  either into "Unexpected error", where the model shows "Could not parse
  JSON".
- backend/main.py beyond the body it returns. FastAPI routing, reading
  the upload and uvicorn are left out.
- Streamlit.HandleResponse: the page output drawn before an exception
  is not kept. Examples are the missing-fields warning and `st.json`
  shown just before `parsed.get` raises on a non-dict. The view records
  only "Unexpected error".
- Streamlit.EntryOf: `str()` of a float, list or dict is not spelled
  out. Such an item is kept as `Repr(value)`; it is never blank, and the
  model proves only that.
- PyStr.ParseInt: `int()` also accepts non-ASCII Unicode decimal digits.
  The model accepts only `0`-`9`, because the reply is asked to use
  ASCII digits.
- PyStr.ParseInt: there is no 4300-digit limit. CPython's `int()` and
  `str()` of an integer raise `ValueError` beyond `sys.int_max_str_digits`,
  4300 digits by default. The model parses and prints integers of any
  length. "Succeeds exactly" therefore holds only for literals of at most
  4300 digits.
- PyStr.ParseLeadingZero: holds in CPython only while the padded literal
  has at most 4300 digits. Beyond that `int()` raises, and line 309 sets
  the score to 0.
- PyStr.ParseDecimal: holds in CPython only for integers of at most 4300
  digits. For longer ones `str(n)` raises first.
- Streamlit.ScoreOfPercent: holds in CPython only for `n` of at most 4300
  digits. A longer score raises inside the `try` and gives 0.
- Streamlit.ScoreIgnoresPercentSigns: the same 4300-digit bound applies.
- Scenario.CanonicalScore: the same 4300-digit bound applies.
- JSON numbers with a fraction are Dafny reals, so `NaN` and `Infinity`,
  which `json.loads` accepts, cannot be written. No modelled outcome
  depends on them: `NaN` is truthy, like every non-zero float, and a
  float never parses as a score.
- An exception from `PdfReader` or `extract_text()` aborts
  `convert_to_text`. The endpoint then fails, and the page shows its API
  error for the failed status. The model has pages that always yield
  text or `None`.
