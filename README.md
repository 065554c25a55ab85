# pygett facade, modelled in Dafny

A model of the `Gett` facade of pygett, a Python 2 client for the Ge.tt file-sharing REST API
(`pygett/base.py`). The facade does four things, and the model proves each of them:

- **Credential validation.** `_check_params` checks the constructor's keyword arguments. The
  model has the loop (`Credentials.CheckParams`) and a reference definition (`ParamsError`,
  `Accepted`). The lemmas show the loop is equivalent to that definition and that every rejection
  names its cause. The email rule `re.search(r'\w+@\w+', email)` is modelled as a scan. The scan is
  proved equal to the regular-expression search and to "some `@` has an ASCII word character on
  each side".
- **Endpoint construction.** `_get_shares` builds the listing path by appending to it. A parser
  reads the query tail back. The tail holds `&limit=N` exactly when the limit is a positive
  integer, and `&skip=M` exactly when the skip is one. When both appear, limit comes first, and
  each carries its own number. `"%d"` is modelled as decimal rendering (`Numerals`), with round
  trips in both directions.
- **Response mapping.** A status and a decoded JSON body become a `Share`, a `File`, a dict of
  shares keyed by name, or a list of shares. Any status other than 200 gives `None`. A body of the
  wrong shape raises the `TypeError` or `KeyError` Python would raise. The dict law and the list
  law are proved. For the dict, the keys are the names listed and a later duplicate wins. For the
  list, there is one share per entry, in order.
- **The upload pipeline.** `upload_file` checks its arguments before any call. It then creates a
  share when none was named, registers the file, and sends its bytes. `Client.UploadOutcome` states
  the exact calls made, in order, and how the upload ends in every case. `Client.Gett.UploadFile` is
  proved to make exactly the calls of `Client.Upload` through the transport.

The transport (`GettRequest`), JSON decoding and `GettFile.send_data` are not part of this model.
They become an oracle, `Http.Server`:
- its answer to each request is a function of every call made so far;
- whether a byte upload succeeds is another such function.

`Http.Transport` logs every call. The access token is an opaque string held by the facade.

Python values are represented by `Values.Value`: None, bool, int, str, list and dict. Keyword
arguments are a sequence of (name, value) pairs, in the order `kwargs.items()` yields them.
Python's exceptions are `Values.Error`. How a facade call ends is a `Domain.Reply`: `Got` (a domain
object), `Nothing` (Python's implicit `None`) or `Raised` (an exception).

Two edge cases of the code are worth noting:

- When `upload_file` creates a share and `create_share` returns `None` (a status other than 200),
  the upload does not return `None`. Line 125 reads `share.sharename` from `None` and so raises.
  The model raises `AttributeError("sharename")`, and no further call is made
  (`Client.UploadCreatesShareFirst`).
- `get_file` formats the file id with `"%d"` before any request. A str, None, list or dict id
  raises `TypeError` there. A bool id is accepted and formatted as 0 or 1, and the model does the
  same.

## Model

| member | source | states |
|---|---|---|
| `Credentials.CheckParams` | pygett/base.py:26-45 | The loop raises at the first fault in source order: no arguments; then the first missing name among apikey, email, password; then the first argument, in iteration order, that is falsy, a non-string apikey or password, a non-string email, or an email without word@word. It returns exactly `ParamsError`. |
| `Credentials.ParamsError` | pygett/base.py:26-45 | Validation succeeds exactly when all of these hold: arguments were given, all three required names are present, every supplied value is truthy, apikey and password are strings, and email is a string that looks like an email. An empty argument list is rejected as such. |
| `Credentials.FirstMissing` | pygett/base.py:30-32 | It reports a required name that is really missing. It reports none exactly when every required name is present. |
| `Credentials.FirstBadValue` | pygett/base.py:34-45 | It reports no error exactly when every supplied argument, required or not, is acceptable. |
| `Credentials.ArgumentFault` | pygett/base.py:35-45 | One argument raises nothing exactly when it is acceptable: truthy, apikey and password strings, email a string that matches. |
| `Credentials.ParamsErrorBlames` | pygett/base.py:26-45 | Every rejection names its cause. MissingParams means no arguments. MissingParam names a required key that is absent. FalsyParam names a key whose value is falsy. NotAString names apikey or password holding a truthy non-string. The email errors point at the email entry. |
| `Credentials.MissingRequiredReported` | pygett/base.py:27-32 | If a required key is missing, the error is the missing-parameters error about a required key that is absent. No value check is reached. |
| `Credentials.FalsyRejected` | pygett/base.py:34-36 | Any falsy value is rejected, whether or not its key is required. |
| `Credentials.EmailLikeIsLocal` | pygett/base.py:40-42 | The scan accepts a string exactly when some '@' after the first position has an ASCII word character immediately before and after it. |
| `Credentials.LocalIsSearch` | pygett/base.py:41 | That local condition holds exactly when some substring is matched in full by \w+@\w+, which is what `re.search` decides. |
| `Credentials.EmailLikeIsSearch` | pygett/base.py:40-42 | The scan agrees with the regular-expression search on every string. |
| `Credentials.Lookup` | pygett/base.py:24 | `kwargs[k]` is found exactly when k was passed, and it is a value passed under k. |
| `Credentials.Authenticate` | pygett/base.py:16-24 | The user is built exactly when validation passes, from the three string values passed, with a matching email. Otherwise the validation error is raised and no user exists. |
| `Numerals.Decimal` | pygett/base.py:50 | The "%d" rendering of a natural number is a non-empty digit string, with no leading zero unless the number is zero. |
| `Numerals.ParseDecimalInverts` | pygett/base.py:50-52 | Reading a rendered number back gives the number, so distinct numbers render differently. |
| `Numerals.DecimalInvertsParse` | pygett/base.py:50-52 | Every canonical numeral is the rendering of its value. |
| `Numerals.SignedRoundTrip` | pygett/base.py:85 | "%d" of any integer, negative ones with a minus sign, reads back to that integer. |
| `Endpoints.PositiveInt` | pygett/base.py:49-51 | A keyword passes the guard exactly when it was passed as an int greater than zero, or as `True`, since bool is an int in Python. The number it yields is that int's own value, and 1 for `True`. |
| `Endpoints.SharesEndpoint` | pygett/base.py:47-52 | The endpoint built by appending is the listing path for the token, the limit and the skip. When neither is a positive int, it is just the base path and the token. |
| `Endpoints.QueryRoundTrip` | pygett/base.py:49-52 | The query tail reads back to exactly the limit and skip it was built from. So `&limit=N` is present iff a limit is, and `&skip=M` iff a skip is. Limit comes before skip, and each carries its own number. |
| `Endpoints.SharesPathShape` | pygett/base.py:48-52 | The listing path always starts with `/shares?accesstoken=` and the token. The rest reads back to the positive limit and skip. With neither, the path is unchanged. |
| `Endpoints.Render` | pygett/base.py:129 | "%s" of a string is the string itself. Exactly the unhashable values (list, dict) are left unrendered. |
| `Endpoints.FilePath` | pygett/base.py:85 | "%d" of a file id fails with TypeError exactly when the id is not an int or bool. |
| `Endpoints.FilePathShape` | pygett/base.py:85 | The file path is `/files/<share>/` followed by a numeral that reads back as the file id. |
| `Domain.ShareOf` | pygett/base.py:82 | A share is built exactly from a mapping body, and it holds that body's fields. Any other body raises TypeError. |
| `Domain.FileOf` | pygett/base.py:88 | A file is built exactly from a mapping body, and it holds that body's fields. Any other body raises TypeError. |
| `Domain.ShareReply` | pygett/base.py:78-82 | The result is `None` exactly when the status is not 200. It is a share exactly when the status is 200 and the body is a mapping, and that share holds the body's fields. |
| `Domain.FileReply` | pygett/base.py:84-88 | The result is `None` exactly when the status is not 200. It is a file exactly when the status is 200 and the body is a mapping. |
| `Domain.Entries` | pygett/base.py:62 | A list body is walked as its entries. Any other body yields no entries or raises TypeError. |
| `Domain.NamedEntry` | pygett/base.py:63 | An entry is stored exactly when it is a mapping with a hashable `sharename`. It is stored under that name, as the share of its fields. |
| `Domain.CollectShares` | pygett/base.py:59-65 | The dict-filling loop returns exactly `ByNameFrom` of the entries. |
| `Domain.ByNameLaw` | pygett/base.py:59-65 | When every entry is well named, the dict's keys are the earlier keys plus the names listed. Each name maps to the share of its last entry, and keys no entry names keep their value. |
| `Domain.ByNameFirstError` | pygett/base.py:62-63 | The first entry that is not a well-named mapping decides the exception raised. |
| `Domain.ListShares` | pygett/base.py:70-76 | The appending loop returns exactly `InOrderFrom` of the entries. |
| `Domain.InOrderLaw` | pygett/base.py:70-76 | When every entry is a mapping, the shares are appended one per entry, in the entries' order, after what was there. |
| `Domain.InOrderFirstError` | pygett/base.py:73-74 | The first entry that is not a mapping raises TypeError. |
| `Domain.SharesMapReply` | pygett/base.py:56-65 | `get_shares` gives `None` exactly when the status is not 200. |
| `Domain.SharesListReply` | pygett/base.py:67-76 | `get_shares_list` gives `None` exactly when the status is not 200. |
| `Domain.SharesMapReplyLaw` | pygett/base.py:56-65 | On 200 with a list of well-named mappings, the result is a dict. Its keys are exactly the names listed, and each maps to the share of its last entry. |
| `Domain.SharesListReplyLaw` | pygett/base.py:67-76 | On 200 with a list of mappings, the result is a list with one share per entry, in the same order. |
| `Http.Transport.Get` | pygett/base.py:54 | A GET appends exactly that call to the log and returns the server's answer to it. |
| `Http.Transport.Post` | pygett/base.py:95 | A POST appends exactly that call, with its params, to the log and returns the server's answer to it. |
| `Http.Transport.SendData` | pygett/base.py:136 | The byte upload appends exactly that call to the log and reports the server's verdict on it. |
| `Client.TitleParams` | pygett/base.py:91-93 | The creation params are `{"title": t}` exactly when a title t was passed, and `None` otherwise. |
| `Client.SharenameOf` | pygett/base.py:118-125 | A created share yields its `sharename`. A `None` result raises AttributeError, and so does a share without that field. An exception from creation propagates. |
| `Client.RegisteredFile` | pygett/base.py:131-135 | A 200 registration body must be a mapping. Its `sharename` is kept when present, and otherwise it is filled with the resolved name. Every other field is left as it was. |
| `Client.ResolveShare` | pygett/base.py:118-127 | With a share name given, it is used and no call is made. Without one, exactly one creation call is made, titled iff a title was passed. The name resolved is the `sharename` of the share that call's answer yields. A status other than 200 for that call raises AttributeError. |
| `Client.Register` | pygett/base.py:129-137 | An unrenderable name raises before any call. Otherwise the registration is the first call. A status other than 200 gives `None` after it. A 200 with a non-mapping body raises TypeError after it. A 200 with a mapping is followed by exactly one transfer of the registered file. That file is returned iff the transfer is accepted, and otherwise the result is `None`. |
| `Client.Upload` | pygett/base.py:100-137 | A missing filename, and then a missing data, raise before any call. At most three calls are made. A file is returned only when the last call transferred that file's data and was accepted, and the call before it was answered 200. |
| `Client.UploadOutcome` | pygett/base.py:116-137 | With both arguments passed, it gives the exact calls and the ending of every path. The calls are one creation call when no share was named, then the registration, then the transfer. A failed resolution raises after the creation call. A registration answered other than 200 gives `None`. A 200 non-mapping raises TypeError. A 200 mapping is followed by the transfer of the registered file, which is returned iff the transfer is accepted, and otherwise the result is `None`. |
| `Client.UploadIntoNamedShare` | pygett/base.py:118-129 | With a share name given, no share is created. The first call registers the file under that name, and only the byte transfer may follow. |
| `Client.UploadCreatesShareFirst` | pygett/base.py:118-129 | Without a share name, one creation call (titled iff a title was passed) comes first, and no later call creates a share. If creation yields no name, for instance when it answered other than 200, the upload raises and sends nothing else. Otherwise the registration under the new name comes second. |
| `Client.UploadReturnsRegisteredFile` | pygett/base.py:129-137 | A returned file follows a registration, carrying the filename, that was answered 200 with a mapping, and an accepted transfer of that very file. It carries the body's `sharename`, or else the given share name. |
| `Client.UploadNamesCreatedShare` | pygett/base.py:118-134 | When the share was created for the upload and the registration body names no share, the returned file carries the `sharename` of the share the creation call returned. |
| `Client.Gett.constructor` | pygett/base.py:24 | The facade holds the given user, its token and the transport. |
| `Client.Gett.Connect` | pygett/base.py:16-24 | `Gett(**kwargs)` succeeds exactly when `_check_params` accepts the arguments, and otherwise raises its error. A facade built holds the user that `Authenticate` builds from the three credentials, with the given token and transport. |
| `Client.Gett.GetShares` | pygett/base.py:56-65 | Exactly one GET of the listing path is made, and the result is `SharesMapReply` of its answer. |
| `Client.Gett.GetSharesList` | pygett/base.py:67-76 | Exactly one GET of the listing path is made, and the result is `SharesListReply` of its answer. |
| `Client.Gett.GetShare` | pygett/base.py:78-82 | Exactly one GET of `/shares/<name>` is made, and the result is `ShareReply` of its answer. |
| `Client.Gett.GetFile` | pygett/base.py:84-88 | An id "%d" cannot render raises TypeError with no call made. Otherwise exactly one GET of `/files/<share>/<id>` is made, and the result is `FileReply` of its answer. |
| `Client.Gett.CreateShare` | pygett/base.py:90-98 | Exactly one POST to `/shares/create?accesstoken=<token>` is made, with `{"title": t}` iff a title was given, and the result is `ShareReply` of its answer. |
| `Client.Gett.UploadFile` | pygett/base.py:100-137 | The method makes exactly the calls of `Upload`, in order, through the transport, and ends as `Upload` says. |

## Left out

- The HTTP transport (`GettRequest`), JSON decoding and the byte upload inside `GettFile.send_data` are network I/O. Their code is not part of this model. They are the oracle `Http.Server`, with every call logged.
- `GettUser` and `access_token()` make an authentication call outside this model. The token is an opaque string fixed when the facade is built. The source reads it afresh at each use, and the model assumes that it does not change and does not fail.
- The `GettShare` and `GettFile` constructors are not part of this model. Each domain object holds just the response fields, not the user it refers to.
- `Client.SharenameOf`: the model assumes that a share built without a `sharename` field has no such attribute, so the read raises.
- The value model has no floats and no Python 2 `unicode` strings. So "%d" truncating a float, and a unicode apikey failing `isinstance(v, str)`, are not covered. `re.search` on a non-string email is covered: it raises the error `EmailNotText`.
- `Endpoints.PositiveInt`: `Values.VInt` stands for a Python 2 `int` only. A `long` (`5L`, or a value too large for the machine word) fails `isinstance(v, int)`, so no `&limit=` or `&skip=` would be appended. Longs are not modelled; an unbounded `VInt` always passes the guard when it is positive.
- `Endpoints.Render`: "%s" of a list or dict, which uses Python's repr, is not rendered. An upload whose created share is named by a list or dict stops with `Unrendered`, where Python would post to the repr.
- `Domain.NamedEntry`: in Python, `True` and `1` (and `False` and `0`) are the same dict key. The model keeps bool and int keys apart.
- `Domain.Entries`: when the listing body is a non-empty string or dict, the model raises TypeError directly. It does not walk the characters or the keys in hash order. Python raises TypeError at the first of them whatever the order, so the outcome is the same.
- `Gett.get_share`, `get_file` and the `sharename` keyword of `upload_file` take that name as a string in the model. "%s" of other values is modelled only for the name of a created share.
- Keyword arguments are a sequence of pairs. Python never passes a name twice, and the model does not forbid it; a lookup takes the first pair. Keywords other than those the source reads are ignored, as in the source.
- Line 134 writes `sharename` into the response dict in place. The model writes it into the file's field map (`Client.RegisteredFile`). Nothing else in the source reads that response afterwards.
- The unused `time` import and the module docstring have no behaviour.
