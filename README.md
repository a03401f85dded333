# matrix-stats in Dafny

A model of the survey script `main.py` of matrix-stats. The script finds which
homeserver software the servers of a Matrix federation run, and it works in four steps:

- For each domain it resolves the homeserver authority. It tries the `.well-known`
  `m.server` value first, then the first `_matrix._tcp` SRV record, and falls back to
  `<domain>:8448`.
- It asks that homeserver for `/_matrix/federation/v1/version` and reduces the answer
  to `name/version`.
- It counts the answers with `Counter(...).most_common()` and drops the unreachable
  domains.
- It writes a plain-text report and sends the first 15 versions to Graphite as
  pickled metrics behind a 4-byte length header.

The network is a value of type `Net.Network`: a fetch function from (URL, optional
`Host` header) to an optional decoded JSON body, and an SRV query function. A failed
request, timeout or DNS error is `None`. The clock readings (`now`) and `pickle.dumps`
are parameters.

Modules:
- `Text`: the Python string operations the script uses: `split()`, `str(int)`, `<4`,
  `lower()`, `replace`.
- `Dict`: the insertion-ordered dictionary.
- `Aggregate`: `Counter`, `most_common` and the loop that drops `None`.
- `Resolution`: `homeserver_for_domain`.
- `Probe`: `version_for_homeserver` and `version_for_domain`.
- `Survey`: the survey in `main`.
- `Report`: `format_report`.
- `Graphite`: `graphite`.

## Model

| member | source | states |
|---|---|---|
| `Resolution.Resolve` | main.py:34-57 | The `Host` header is present exactly in the SRV tier, and then it is `Host: <domain>`. The authority always contains a colon. The well-known tier is taken exactly when the well-known value exists. The SRV tier is taken exactly when there is no well-known value and the SRV answer is non-empty. The method string is `well-known`, `SRV` or `fallback` for the three tiers. |
| `Resolution.WellKnownTier` | main.py:39-45 | An `m.server` value without a colon gets `:8448`. One with a colon is used unchanged. There is no header, and the tier is well-known. |
| `Resolution.SrvTier` | main.py:48-53 | The authority is the first record's host and port. The header is `Host: <domain>`. Records after the first make no difference. |
| `Resolution.FallbackTier` | main.py:54-57 | With no well-known value and no SRV answer, or an empty SRV answer, the result is `<domain>:8448`, no header, fallback. |
| `Resolution.AuthorityPort` | main.py:41-56 | Every authority splits at its last colon. When the host has no colon, the split gives back the host and `8448`, or the SRV record's port in decimal. |
| `Resolution.SrvPortRoundTrip` | main.py:50 | The SRV port written into the authority reads back as the same number. |
| `Resolution.HomeserverForDomain` | main.py:34-57 | The well-known tier is chosen exactly when the well-known fetch returns an object with a string `m.server`. A failed well-known lookup and a non-empty SRV answer select the SRV tier. The SRV tier implies a non-empty SRV answer whose first record is used. The fallback is `<domain>:8448`. There is a header exactly in the SRV tier, and it is `Host: <domain>`. The method string is `SRV` exactly when there is a header. |
| `Text.FirstWordOfSplit` | main.py:63-64 | `split()` is empty exactly when the string is all whitespace. Otherwise its first piece is exactly the word after the leading whitespace, ending at whitespace or at the end. |
| `Probe.Normalize` | main.py:63-64 | The result is absent exactly when the version has no word. Otherwise it is `name + "/"` followed by the version's first word. |
| `Probe.NormalizeExact` | main.py:64 | The converse: any first word `w` of the version gives `name/w`. |
| `Probe.NormalizeSynapse` | main.py:63-64 | `("Synapse", "1.6.1 (abcd,branch)")` gives `"Synapse/1.6.1"`. |
| `Probe.ServerVersion` | main.py:62-64 | A result exists only when `server` is an object with string `name` and `version` and the version has a word. |
| `Probe.ServerVersionOf` | main.py:62-64 | Any body whose `server` object has string `name` and `version` gives exactly the normalised `name/version`, whatever other keys it carries. |
| `Probe.VersionForHomeserver` | main.py:59-70 | A version is reported only when the version request to the resolved authority, with the resolved header, returned a body that yields it. Conversely, when the request returns a body, the result is exactly what that body yields. |
| `Probe.VersionForDomain` | main.py:72-74 | A domain reports a version exactly when the version request built from its resolution returns a body that yields a version, and then it reports that version. |
| `Probe.DomainRequest` | main.py:72-74 | The probe goes to `https://<authority>/_matrix/federation/v1/version`. It carries `Host: <domain>` exactly in the SRV tier. |
| `Dict.Put` | main.py:162 | `d[k] = v` keeps keys distinct and adds only `k`. Afterwards `k` maps to `v` and every other key is unchanged. A new key goes last. A present key keeps its place, so the key order is unchanged. |
| `Aggregate.TallyKeys` | main.py:156 | The keys of `Counter(results)` are the distinct results in first-seen order. |
| `Aggregate.TallyCounts` | main.py:156 | Each count is the number of occurrences. |
| `Aggregate.SortPermutes` | main.py:156 | `most_common()` is a permutation of the counter's items. |
| `Aggregate.SortSorted` | main.py:156 | `most_common()` lists the items in non-increasing count order. |
| `Aggregate.SortStable` | main.py:156 | Entries with equal counts keep their relative order. |
| `Aggregate.DropAbsent` | main.py:158-162 | The loop's table has distinct keys, and its keys are exactly the non-`None` keys of its input. On a dictionary's items it equals the input with the `None` entry removed, in order. |
| `Aggregate.TableKeys` | main.py:156-162 | The table has each reported version once, and exactly the versions some domain reported. `None` is never a key. |
| `Aggregate.TableCounts` | main.py:156-162 | Each count is the number of domains that reported that version. |
| `Aggregate.TableOrder` | main.py:156-162 | Counts are non-increasing. |
| `Aggregate.TableTies` | main.py:156-162 | The entries with count `c` are the counter's entries with count `c`, in first-seen order, without `None`. |
| `Aggregate.TableTotal` | main.py:156-162 | The counts add up to the number of domains minus the unreachable ones. That is at most the number of domains, with equality exactly when every domain answered. |
| `Survey.SurveyTable` | main.py:153-162 | The survey's table has distinct keys and non-increasing counts. Its keys are the versions some domain reported, each count is the number of domains reporting that version, and the total is at most the number of domains, equal exactly when all answered. |
| `Survey.Collect` | main.py:153-162 | The table `main` builds equals the aggregate table, with all the facts above. |
| `Text.DecimalRoundTrip` | main.py:50 | `str(n)` reads back as `n`. |
| `Text.LeftAlign` | main.py:116 | `{count:<4}` pads on the right with spaces to at least 4 characters and never truncates. |
| `Report.FormatReport` | main.py:107-117 | The report is the time stamp line, then `<total> homeservers online` with the sum of all counts and a blank line, then one `<count:<4> <version>` line per entry, in table order. |
| `Report.ParseLineOf` | main.py:116 | One entry line reads back as its version and count. |
| `Report.ReportRoundTrip` | main.py:107-117 | The report reads back as its time stamp, the total of the counts and the whole table, in order, when no name contains a line break. |
| `Graphite.MetricPath` | main.py:123 | Length is kept. The output has a `.` exactly where the version has `/`. It has a `-` exactly where the version has `.` or `-`. It has no `/`, and every other character is lower-cased. |
| `Graphite.MetricPathSynapse` | main.py:123 | `Synapse/1.6.1` becomes `synapse.1-6-1`. |
| `Graphite.PackLength` | main.py:127 | `struct.pack('!L', n)` succeeds exactly when `n < 2^32`, gives 4 bytes, and those bytes read big-endian are `n`. |
| `Graphite.PackBigEndian` | main.py:127 | Every 4-byte header is the packing of the number it encodes. |
| `Graphite.Graphite` | main.py:119-127 | Sends `min(15, n)` tuples. Tuple `i` is the `i`-th entry's mangled name with the time stamp and the count. The payload is the pickle of exactly those tuples. The size header is present exactly when the payload is shorter than `2^32`, and it decodes to the payload's length. |

## Left out

- HTTP through aiohttp and DNS through aiodns (main.py:22-25, 49, 152) are the abstract functions of `Net.Network`. TLS settings and timeouts have no logical content.
- The JSON decoding in `fetch` is not modelled. A body is already decoded, and numbers, booleans, null and arrays are all `Net.Json.Other`.
- `asyncio.gather` (main.py:153-156) is a sequential map over the domains (`Survey.Results`). `gather` keeps the input order. The results are the same only because `Net.Network` is a function: the same URL and header always get the same answer. The script's concurrent requests can be answered differently, for example when one of them times out.
- `file_destinations`, `postgres_destinations` and `serverstats_destinations` read a file, a SQL table and an HTTP endpoint, and `test_destinations` is a constant list. The list of domains is a parameter.
- `ensure_rlimit_file` (main.py:27-32) is an OS resource-limit call.
- Graphite.Graphite: `size == None` stands for the `struct.error` that `struct.pack` raises for a payload of `2^32` bytes or more. That call sits outside the `try` (main.py:127-135), so the script aborts there, while the model finishes.
- `pickle.dumps(tuples, 2)` is the parameter `pickle` of `Graphite.Graphite`. Its byte layout is not modelled.
- The socket connection and sends in `graphite` (main.py:129-135) are not modelled. The report file writes (main.py:166-172), `argparse` and the debug prints are not modelled either.
- `datetime.now().isoformat()` and `int(time.time())` are parameters (`now`).
- The full Matrix server-name rules are not modelled: IP literals, SRV priority and weight, well-known redirects and caching. The script does not implement them.
- Resolution.HomeserverForDomain: an `m.server` value that is an array or an object counts as a failed well-known lookup. The script would use it: the f-string at main.py:42 stringifies it and appends `:8448`, unless `':'` is one of its elements or keys, in which case it is used as it is. A number, boolean or null makes the `in` test at main.py:41 raise, and the script moves on to SRV as the model does.
- Probe.ServerVersion: a `name` that is not a string counts as a failure. The script would format it with `str()`.
- Text.Lower: lower-cases ASCII letters only. Python's `str.lower` maps all of Unicode.
- Graphite.MetricPath: inherits the ASCII-only lower-casing of `Text.Lower`.
- Net.SrvRecord: the port is an unbounded natural number. A DNS reply carries a 16-bit port.
