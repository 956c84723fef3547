# Salesforce data cleaner, modelled in Dafny

The system takes account records: JSON objects with a company Name, a
Phone and a Website. It cleans them and deduplicates them by name, then
pushes them to Salesforce. In mock mode the push writes them to a
timestamped file instead. It also runs the OAuth flow that supplies
the access token: a login link, a callback that trades an authorisation
code for a token, and a refresh that stores a new access token in the
process environment and in the `.env` file.

The model keeps each source file in its own form:

- **Cleaning functions** (`data_cleaner.py`, `app.py`) are pure
  functions over ASCII strings. The Python `str` methods they use are
  modelled in `PyStr`: `strip`, `lower`, `split`, `' '.join`,
  `capitalize`, `title`, `startswith`, and the non-digit deletion done
  by `re.sub`.
- **`clean_data`** is a method with a loop. It is proved against a
  specification function that dedups the cleaned batch.
- **HTTP** is a `Remote` object. It logs every request sent and answers
  the `n`-th request through a function supplied with the object, which
  returns a response or a raised exception.
- **State-changing code** (the request helper, the bulk uploader, the
  push, the callback and the token refresh) is a set of module-level
  methods, as in the source. They act on collaborator objects, each a
  class whose fields those methods change: `Remote` (the HTTP log),
  `Environment` (the process environment), `Refresher` (the token
  endpoint seen by the request helper), `Folder` (the `cleaned/`
  folder), `TokenFile` (`token.json`) and `EnvFile` (the `.env` file).
- **Ensures clauses** state the requests sent and the new state. Each
  is expressed through a pure function whose properties are proved as
  lemmas.

Modules, one file each:

- `Py`: Python values.
- `PyStr`: string methods.
- `Accounts`: the cleaned record.
- `DataCleaner`: `data_cleaner.py`.
- `App`: the cleaning part of `app.py`.
- `Http`: requests and the remote end.
- `OsEnv`: `os.environ`.
- `SalesforceClient`: `salesforce_client.py`.
- `SalesforceApi`: `salesforce_api.py`.
- `SalesforceService`: `salesforce_service.py`.
- `OAuthFlow`: `oauth_flow.py`.

## Model

| member | source | states |
|---|---|---|
| Py.GetOr | app.py:32-34 | `.get(key, default)` gives the stored value when the key is present, even an empty one, and the default only when the key is absent |
| Py.Map | app.py:48 | a list comprehension gives one result per element, each the function applied to the element at the same position |
| Py.MapAppend | app.py:48 | a list comprehension maps each part of a concatenated list on its own |
| PyStr.Strip | data_cleaner.py:17 | `strip()` leaves no whitespace at either end and never lengthens the text |
| PyStr.TrimLeft | data_cleaner.py:17 | `lstrip()` returns a suffix; every character it drops is whitespace and the first one it keeps is not |
| PyStr.TrimRight | data_cleaner.py:17 | `rstrip()` returns a prefix; every character it drops is whitespace and the last one it keeps is not |
| PyStr.StripBetween | data_cleaner.py:26 | stripping whitespace padding around an unpadded text gives that text back |
| PyStr.Lower | data_cleaner.py:17 | no contract of its own; see PyStr.LowerFacts |
| PyStr.LowerFacts | data_cleaner.py:17 | `lower()` keeps the length, leaves no upper-case letter, is idempotent and leaves lower-case text unchanged |
| PyStr.Digits | data_cleaner.py:4-10 | deleting every non-digit leaves only digits and never lengthens the text |
| PyStr.DigitsAppend | data_cleaner.py:10 | deleting non-digits distributes over concatenation, so the digits keep their order |
| PyStr.DigitsOfDigits | data_cleaner.py:10 | a string of digits loses nothing |
| PyStr.DigitsOfNonDigits | app.py:15 | a string without digits is deleted entirely |
| PyStr.FirstSpace | data_cleaner.py:26 | the length of the leading run of non-whitespace: everything before it is non-space, the character at it is whitespace |
| PyStr.Split | data_cleaner.py:26 | no contract of its own; see PyStr.SplitWords, PyStr.SplitJoin, PyStr.SplitBlank and PyStr.SplitAtSpace |
| PyStr.Join | data_cleaner.py:26 | no contract of its own; see PyStr.JoinShape and PyStr.SplitJoin |
| PyStr.SplitSpaceFront | data_cleaner.py:26 | a leading whitespace character does not change what `split()` gives |
| PyStr.SplitBlank | data_cleaner.py:26 | a text made only of whitespace (the empty text too) splits into no words |
| PyStr.SplitAtSpace | data_cleaner.py:26 | splitting at any whitespace character splits the two sides on their own: `split()` of `a + c + b` is `split()` of `a` followed by `split()` of `b`, for any run of whitespace |
| PyStr.SplitWords | data_cleaner.py:26 | every element of `split()` is a non-empty run without whitespace |
| PyStr.SplitJoin | data_cleaner.py:26 | `split()` undoes `' '.join` on a list of words |
| PyStr.JoinShape | data_cleaner.py:26 | joining words with single spaces gives single-spaced text |
| PyStr.Capitalize | data_cleaner.py:26 | no contract of its own; see PyStr.CapitalizeWord and PyStr.CapitalizeIdempotent |
| PyStr.CapitalizeWord | data_cleaner.py:26 | `capitalize()` keeps the length and turns a word into a word |
| PyStr.CapitalizeIdempotent | data_cleaner.py:26 | a capitalized word is left as it is by `capitalize()` |
| PyStr.Title | app.py:11 | `title()` upper-cases a character that follows a non-letter (or starts the text) and lower-cases one that follows a letter |
| PyStr.TitleFacts | app.py:11 | `title()` changes only the case of letters, keeps whitespace where it was and is idempotent |
| Accounts.Account.AsDict | data_cleaner.py:29-33 | the cleaned record is a dict with exactly the keys Name, Phone and Website, holding the three cleaned fields |
| DataCleaner.NormalizePhone | data_cleaner.py:6-12 | the result is empty for an empty phone, consists of digits only and is no longer than the input |
| DataCleaner.NormalizePhoneAppend | data_cleaner.py:10 | normalising a concatenation concatenates the normalised parts: digits are neither reordered nor lost |
| DataCleaner.NormalizePhoneIdempotent | data_cleaner.py:6-12 | a string of digits is its own normal form, so normalising twice is normalising once |
| DataCleaner.NormalizeWebsite | data_cleaner.py:14-21 | the result is empty exactly when the input is empty |
| DataCleaner.NormalizeWebsiteShape | data_cleaner.py:17-21 | a non-empty result is lower-case, unpadded and starts with `http://` or `https://` |
| DataCleaner.NormalizeWebsiteFixed | data_cleaner.py:14-21 | an address that is already lower-case, unpadded and names its `http://` or `https://` scheme is returned unchanged |
| DataCleaner.NormalizeWebsiteCases | data_cleaner.py:17-21 | for a non-empty input, the scheme is tested after stripping and lower-casing: an address naming `http://` or `https://` is returned as the stripped, lower-cased text, and any other gets `https://` in front of it |
| DataCleaner.NormalizeWebsiteKeepsText | data_cleaner.py:17-21 | nothing of the stripped, lower-cased input is lost: the result ends with it, behind at most eight added characters |
| DataCleaner.NormalizeWebsiteIdempotent | data_cleaner.py:14-21 | normalising a normalised website changes nothing |
| DataCleaner.CapitalizeWords | data_cleaner.py:26 | capitalizing each word keeps the number of words and keeps them words |
| DataCleaner.TitleCaseName | data_cleaner.py:23-26 | an empty name gives the empty string |
| DataCleaner.TitleCaseNameShape | data_cleaner.py:23-26 | the result is single-spaced, and its words are the capitalized words of the stripped input, in order |
| DataCleaner.CapitalizeWordsIdempotent | data_cleaner.py:26 | capitalizing the words twice is capitalizing them once |
| DataCleaner.TitleCaseNameIdempotent | data_cleaner.py:23-26 | every word of the result is already capitalized, and title-casing the result changes nothing |
| DataCleaner.Pick | data_cleaner.py:30-32 | `rec.get(primary) or rec.get(alias) or ""`: a non-empty primary wins; a non-empty result comes from one of the two keys; an empty result means both are missing or empty |
| DataCleaner.CleanRecord | data_cleaner.py:28-33 | no contract of its own; see DataCleaner.CleanRecordShape, DataCleaner.CleanRecordIdempotent and DataCleaner.CleanName |
| DataCleaner.CleanRecordShape | data_cleaner.py:28-33 | every cleaned record has a single-spaced name, a phone of digits only, and a website that is empty or names its scheme |
| DataCleaner.CleanRecordIdempotent | data_cleaner.py:28-33 | cleaning a cleaned record, read back as a dict, gives it back |
| DataCleaner.SeenSnoc | data_cleaner.py:44-47 | adding a kept record adds exactly its lower-cased name to the seen set |
| DataCleaner.CleanAll | data_cleaner.py:38-39 | one cleaned record per input record |
| DataCleaner.Dedup | data_cleaner.py:40-48 | the kept records are no more than the cleaned ones, and none has an empty name |
| DataCleaner.CleanAllSnoc | data_cleaner.py:38-39 | cleaning one more record appends its cleaned form |
| DataCleaner.DedupSnoc | data_cleaner.py:40-48 | one more record is appended exactly when its name is non-empty and its lower-cased name has not been seen |
| DataCleaner.CleanData | data_cleaner.py:35-49 | the loop returns the dedup of the cleaned batch: no empty name, and no two kept records whose names agree in lower case |
| DataCleaner.DedupSeen | data_cleaner.py:44-47 | the lower-cased names kept are exactly those of the non-empty cleaned names |
| DataCleaner.DedupDistinct | data_cleaner.py:43-47 | no two kept records share a lower-cased name |
| DataCleaner.DedupOrigins | data_cleaner.py:38-48 | every kept record is the first occurrence of its lower-cased name in the batch, and the kept records keep their input order |
| DataCleaner.IsFirstPrefix | data_cleaner.py:44-45 | a first occurrence within a prefix of the batch is a first occurrence in the whole batch |
| DataCleaner.KeptIsFirst | data_cleaner.py:45-48 | a record appended by the loop is the first occurrence of its lower-cased name |
| DataCleaner.DedupOfDistinct | data_cleaner.py:40-48 | a batch with non-empty, pairwise distinct names passes the dedup unchanged |
| DataCleaner.Dicts | data_cleaner.py:29-33 | one dict per cleaned record |
| DataCleaner.CleanDataIdempotent | data_cleaner.py:35-49 | cleaning the output of a cleaning, read back as dicts, gives it back |
| DataCleaner.ExampleBatch | data_cleaner.py:35-49 | a batch of "  acme corp  ", "ACME corp" and an empty name cleans to the single record named "Acme Corp" |
| DataCleaner.SameNameBatch | data_cleaner.py:35-49 | of two records whose names title-case alike followed by one with an empty name, only the first is kept |
| DataCleaner.CleanName | data_cleaner.py:30 | a record carrying the Name key and no name key is cleaned from its Name |
| DataCleaner.DedupRepeat | data_cleaner.py:40-48 | a repeated name and an empty name are both dropped |
| DataCleaner.ExampleNames | data_cleaner.py:23-26 | "  acme corp  " and "ACME corp" both title-case to "Acme Corp" |
| DataCleaner.TitleCaseTwoWords | data_cleaner.py:26 | a name that strips to two words title-cases to the two capitalized words joined by a space |
| App.CleanName | app.py:9-11 | no contract of its own; see App.CleanNameFacts and App.CleanNameIdempotent |
| App.CleanNameFacts | app.py:9-11 | the result has the stripped length, no padding, the same lower-cased form and whitespace in the same places as the stripped name |
| App.CleanNameIdempotent | app.py:9-11 | cleaning a cleaned name changes nothing |
| App.PhoneDigits | app.py:15-19 | the digits after the prefix decision are digits only |
| App.CleanPhone | app.py:13-20 | the result is a `+` followed by digits only |
| App.CleanPhoneTen | app.py:16-17 | ten digits get the country code 91 in front |
| App.CleanPhoneTrunkZero | app.py:18-19 | eleven digits starting with 0 lose the 0 and get 91 in front |
| App.CleanPhoneOther | app.py:15-20 | any other count of digits is kept as it is, behind a `+` |
| App.CleanPhoneNoDigits | app.py:15-20 | a phone without digits (the empty one too) becomes the bare `+` |
| App.CleanPhoneIdempotent | app.py:13-20 | cleaning a cleaned phone changes nothing |
| App.CleanWebsite | app.py:22-27 | no contract of its own; see App.CleanWebsiteCases, App.CleanWebsiteShape, App.CleanWebsiteBlank and App.CleanWebsiteIdempotent |
| App.CleanWebsiteCases | app.py:24-27 | a site that starts with `http` once stripped and lower-cased is kept as that site, whatever follows; any other gets `https://` in front |
| App.CleanWebsiteShape | app.py:22-27 | the result is lower-case, unpadded and starts with `http`, and it ends with the stripped, lower-cased input |
| App.CleanWebsiteBlank | app.py:22-27 | an empty or blank website becomes the bare `https://` |
| App.CleanWebsiteIdempotent | app.py:22-27 | cleaning a cleaned website changes nothing |
| App.CleanRecord | app.py:29-35 | no contract of its own; see App.CleanRecordMissing, App.CleanRecordOfDict and App.CleanRecordIdempotent |
| App.CleanRecordMissing | app.py:29-35 | a record without the three keys cleans to an empty name, `+` and `https://` |
| App.CleanRecordOfDict | app.py:29-35 | a cleaned record read back as a dict is cleaned field by field |
| App.CleanRecordIdempotent | app.py:29-35 | cleaning a cleaned record, read back as a dict, gives it back |
| App.CleanAll | app.py:48 | one cleaned record per input record, in order |
| App.CleanAllAppend | app.py:48 | cleaning a concatenated batch concatenates the cleaned parts |
| App.CleanAllIdempotent | app.py:48 | cleaning a cleaned batch, read back as dicts, gives it back |
| Http.Remote.Send | salesforce_client.py:51 | a request is logged at the end of the log and answered by the remote end according to its position |
| OsEnv.Environment.Update | salesforce_client.py:64 | setting a variable changes that variable and nothing else |
| SalesforceClient.Refresher.Refresh | salesforce_client.py:57 | each refresh is counted and returns the next answer of the token endpoint |
| SalesforceClient.Protocol | salesforce_client.py:41-72 | at most two requests and one refresh, all requests alike but for the token, and the last reply returned; no refresh without a 401; a falsy refresh returns the 401 and stores nothing; a retry happens exactly when a 401 meets a new token, which is stored and sent as `Bearer <token>` |
| SalesforceClient.SalesforceRequest | salesforce_client.py:41-72 | the requests sent, refreshes made, token stored and reply returned are those of `Protocol`, for the URL of the instance setting followed by the endpoint |
| SalesforceApi.Classify | salesforce_api.py:24-34 | no contract of its own; see SalesforceApi.ClassifyCases |
| SalesforceApi.ClassifyCases | salesforce_api.py:24-34 | only a 201 whose body decodes is a success and keeps that body; any other status, 200 included, fails with the response text; an exception fails with its message; every failure names its record |
| SalesforceApi.Tally | salesforce_api.py:21-36 | every record lands in exactly one of the two lists |
| SalesforceApi.TallySnoc | salesforce_api.py:26-34 | one more outcome is appended at the end of its own list |
| SalesforceApi.TallyCounts | salesforce_api.py:21-36 | the success list holds one body per successful outcome, and the failure list holds the rest |
| SalesforceApi.TallyAppend | salesforce_api.py:21-36 | tallying two parts of a batch and concatenating the lists gives the tally of the whole, so both lists keep the record order |
| SalesforceApi.TallyAllSucceeded | salesforce_api.py:26-27 | when every record succeeds, no failures are reported and the successes are the response bodies in order |
| SalesforceApi.Outcomes | salesforce_api.py:23-34 | one outcome per record |
| SalesforceApi.Posts | salesforce_api.py:23-25 | one request per record |
| SalesforceApi.PrefixStep | salesforce_api.py:23-34 | posting one more record adds one request and one outcome at the end |
| SalesforceApi.UploadToSalesforce | salesforce_api.py:10-36 | without both settings it raises "Salesforce environment variables not set." before sending anything; otherwise it posts each record once, in order, and returns the tally of their outcomes |
| SalesforceService.MockFlag | salesforce_service.py:7 | no contract of its own; see SalesforceService.MockFlagCases |
| SalesforceService.MockFlagCases | salesforce_service.py:7 | mock mode is on when the setting is unset, and the case of the setting does not matter |
| SalesforceService.ApiVersion | salesforce_service.py:13 | the version is the setting, or 64.0 when it is unset |
| SalesforceService.Folder.Dump | salesforce_service.py:17-18 | when the folder exists, the records are written to the given file and no other file changes; when it does not, `open` raises FileNotFoundError naming the path and nothing is written |
| SalesforceService.MockPathInjective | salesforce_service.py:16 | the mock file sits in cleaned/ and is named after its time stamp, so different stamps name different files |
| SalesforceService.MockDetails | salesforce_service.py:19 | one detail per record, in order, with the record's Name (or None), status mocked and no id |
| SalesforceService.MockWrite | salesforce_service.py:15-20 | when cleaned/ exists, the records are dumped to the stamped file and the mock file and details are returned; when it does not, the FileNotFoundError is raised and no file is written |
| SalesforceService.PostResult | salesforce_service.py:31-35 | no contract of its own; see SalesforceService.PostResultCases |
| SalesforceService.PostResultCases | salesforce_service.py:31-35 | every status code is passed through with the decoded body or, failing that, the text; only a transport exception raises |
| SalesforceService.SObjectPosts | salesforce_service.py:24-31 | without credentials no request is sent; otherwise one per record |
| SalesforceService.Entries | salesforce_service.py:41-49 | one result entry per record |
| SalesforceService.EntriesWithoutCredentials | salesforce_service.py:24-25 | without credentials every record gets the same error entry |
| SalesforceService.EntriesWithCredentials | salesforce_service.py:43-48 | with credentials, entry `i` is built from the answer to the `i`-th request, and it is an error exactly when that request raised |
| SalesforceService.PostToSObject | salesforce_service.py:22-35 | without credentials it raises the settings message and sends nothing; otherwise it sends one POST with the record and a 30-second timeout and returns that reply's result |
| SalesforceService.PushToSalesforce | salesforce_service.py:37-49 | when the MOCK setting turns mock mode on it sends nothing, and it writes the file and returns the mock details, or raises FileNotFoundError with no file written when cleaned/ is missing; otherwise it writes no file, sends the posts for the configured API version (64.0 by default) in order and returns their entries without raising |
| SalesforceService.PostEach | salesforce_service.py:41-49 | the requests sent are the posts of the records, in order, and the entries returned are those of `Entries` for the replies to them |
| SalesforceService.PushStep | salesforce_service.py:43-48 | pushing one more record adds at most one request and exactly one entry at the end |
| OAuthFlow.AuthLink | oauth_flow.py:23-27 | no contract of its own; see OAuthFlow.AuthLinkParts |
| OAuthFlow.AuthLinkParts | oauth_flow.py:23-27 | the link is, piece by piece, the authorisation URL, `?response_type=code&client_id=`, the client id, `&redirect_uri=` and the redirect URI, each shown as Python's f-string would, and nothing else |
| OAuthFlow.CallbackPage | oauth_flow.py:46-56 | no contract of its own; see OAuthFlow.CallbackPageCases |
| OAuthFlow.CallbackPageCases | oauth_flow.py:46-56 | an answer with an error key is returned with 400; the token is saved exactly when the page is a 200 showing the decoded answer; an exception or an undecodable body ends in a server error |
| OAuthFlow.TokenFile.Write | oauth_flow.py:53-54 | token.json holds the text written |
| OAuthFlow.Callback | oauth_flow.py:31-56 | without a code: a 400 with its message before any exchange and nothing saved; with one: exactly one exchange, whose answer decides the page and whether its text is saved |
| OAuthFlow.RewriteEnv | oauth_flow.py:86-90 | same number of lines; each token line is replaced by the new assignment, and every other line is kept |
| OAuthFlow.RewriteEnvWithoutKey | oauth_flow.py:86-90 | a file without the token key is written back unchanged: the key is not appended |
| OAuthFlow.RewriteEnvIdempotent | oauth_flow.py:86-90 | rewriting again with the same token changes nothing |
| OAuthFlow.EnvFile.Write | oauth_flow.py:85-90 | the .env file holds the lines written |
| OAuthFlow.RefreshOutcome | oauth_flow.py:71-100 | no contract of its own; see OAuthFlow.RefreshSucceeds, OAuthFlow.RefreshFails and OAuthFlow.RefreshHalfDone |
| OAuthFlow.RefreshSucceeds | oauth_flow.py:71-93 | a token is returned exactly after a 200 whose body names it and a readable .env; it is then in the environment and on every token line of the file |
| OAuthFlow.RefreshFails | oauth_flow.py:71-100 | any status other than 200, an undecodable body or a missing access_token returns None and changes nothing |
| OAuthFlow.RefreshHalfDone | oauth_flow.py:79-84 | an unreadable .env returns None although the new token is already in the environment |
| OAuthFlow.RefreshSalesforceToken | oauth_flow.py:58-100 | one POST of the refresh form, then the token, environment and .env file given by `RefreshOutcome` |
| OAuthFlow.MapSnoc | oauth_flow.py:86-90 | rewriting one more line appends its rewritten form |

## Left out

- The Flask application is not modelled: request parsing, `jsonify`, `render_template` and the routes' HTTP plumbing. The rest of `clean_and_upload` (app.py:37-69: the check for a `records` key, the folder creation and the save of the cleaned records to a file) is not part of this model; that route uploads nothing.
- Real HTTP is not modelled. Each remote end is a function from the request's position and the request to a response (status, text and what `.json()` gives) or to a raised exception.
- Clocks are not modelled. The mock file's time stamp is a parameter.
- The settings read from the environment at import time are parameters: `MOCK`, the credentials, the API version and the OAuth settings.
- `print` output is not modelled.
- The JSON formatting of the dumped files (indentation, `ensure_ascii`) is not modelled. A dumped file is its list of records.
- Text is ASCII only. Other characters are carried through unchanged and are never letters, digits or whitespace, so Unicode case mapping and Unicode whitespace are not modelled.
- JSON values are strings only. A record holding numbers, `null` or nested objects is not modelled, and so is a callback answer that is not an object.
- How `requests` encodes a form is not modelled: it drops keys whose value is `None`. The model keeps the form as a map to optional strings.
- An unset token URL is sent as the text None. A real post to it fails, which the remote end can model by raising.
- `update_env_var` is imported by salesforce_client.py from oauth_flow.py, which does not define it, so the import as written fails.
- OsEnv.Environment.Update: models only the last step of the `update_env_var` draft left commented out at salesforce_client.py:8-35, the `os.environ` update. The draft's rewrite of `.env`, which replaces the key's line or appends `key=value` when no line has it, is not modelled.
- SalesforceService.Folder.Dump: of the ways `open` can fail, only the missing `cleaned/` folder is modelled. Permission and disk errors are not.
- SalesforceClient.SalesforceRequest: the refresh is a black box (`Refresher`) that returns the next token. Its own effects on the environment and the .env file are modelled separately by `OAuthFlow.RefreshSalesforceToken`.
- SalesforceClient.SalesforceRequest: passing `headers` inside `**kwargs` raises a TypeError in the source. The model's `Args` cannot carry headers, so this case is not modelled.
- OAuthFlow.RefreshSalesforceToken: a failure while writing `.env` after it has been read (and truncated) is not modelled.
- DataCleaner.TitleCaseName, DataCleaner.NormalizeWebsite and DataCleaner.CleanRecord keep light contracts of their own. Their shape properties are stated by the `...Shape` lemmas next to them, so that unfolding them elsewhere stays cheap.
- DataCleaner.ExampleBatch states the example for any records carrying those names. Their other fields are left free.
