# PPPoE disconnection monitor: log filter and reconnection bookkeeping

This project models in Dafny the logic core of a MikroTik PPPoE monitoring
dashboard (`tarea.py`). The dashboard reads the router's log and reports
which PPPoE clients disconnected. Later it tells the operator which of them
have come back. Two pieces carry that logic:

* **The log filter** `filter_pppoe_disconnections`. Each log entry is a
  dictionary with `time`, `message` and an optional `topics`. The filter
  turns each entry into at most one disconnection record in three steps:
  * A relevance gate checks the topics (case-sensitively) and the
    lower-cased message for a few terms.
  * Five case-insensitive patterns of the form `prefix(.*)suffix` are
    tried in order with `re.search`, and the first that matches wins.
  * The client name is the stripped capture group. The address is the
    leftmost `\d{1,3}\.\d{1,3}\.\d{1,3}\.\d{1,3}` in the message, or "N/A".
* **The reconnection bookkeeping** of the options column. A set of
  recently disconnected names is kept across reruns of the page:
  * Checking it against the active-session map reports the active names
    found in the set. It then clears the set, but only when the map is
    non-empty.
  * Every scan of the last disconnections adds the names it found.

Modules (one file each):

| module | file | contents |
|---|---|---|
| `Wrappers` | wrappers.dfy | `Option`, used for a missing dictionary key or a failed search |
| `Text` | text.dfy | ASCII lower-casing, substring test, Python's `str.strip()` |
| `Patterns` | patterns.dfy | the five patterns and `re.search` for the shape `prefix(.*)suffix` |
| `Ipv4` | ipv4.dfy | the dotted-quad search |
| `Seqs` | seqs.dfy | a generic filter-map over sequences and its selection property; in-order subsequences |
| `Classifier` | classifier.dfy | log entries, records, the relevance gate, the filter |
| `Reconcile` | reconcile.dfy | the check against the active map and the recording of a scan |
| `Examples` | examples.dfy | worked inputs |

How the regular-expression search is modelled:
* A search finds the leftmost start at which some full match exists. That
  start need not be the first place where the prefix occurs. For example,
  in `"user a\nuser b disconnected"` the pattern `user (.*) disconnected`
  has no match at 0, because the capture cannot cross the line break, so
  the search goes on to the second line.
* At that start, the greedy `(.*)` extends to the last occurrence of the
  suffix on the same line.
* Patterns with no suffix capture up to the end of the line.

`Patterns.IsSearchResult` states this declaratively. `Patterns.Search`
computes it with plain scans and is proved to agree with it.

## Model

| member | source | states |
|---|---|---|
| Text.Contains | tarea.py:103-108 | Python's `in` on strings: true exactly when the term occurs at some position |
| Text.Strip | tarea.py:118 | `strip()` returns a trimmed middle of its input, and only whitespace is removed on either side |
| Text.StripPadded | tarea.py:118 | for any trimmed core padded with whitespace on both sides, `strip()` gives back exactly the core |
| Text.StripIdempotent | tarea.py:118 | stripping twice is the same as stripping once |
| Patterns.Search | tarea.py:115-117 | a search succeeds exactly when some start and capture end form a match; the result starts leftmost and its capture is the longest at that start |
| Patterns.FirstMatch | tarea.py:115-131 | the patterns are tried in list order: the hit is the first whose search succeeds, with that search's match, and there is no hit exactly when every search fails |
| Patterns.SearchRoundTrip | tarea.py:115-118 | in a line written as prefix + x + suffix, with later lines after it, the search captures exactly x, even when x contains the prefix or the suffix |
| Ipv4.QuadAtSpec | tarea.py:121 | the per-position scan finds a quad at a position exactly when one starts there, and it finds the longest one |
| Ipv4.ExtractIp | tarea.py:121-122 | the address is "N/A" exactly when the message holds no dotted quad; otherwise it is the leftmost, longest one, with octets not range-checked |
| Ipv4.NoDotNoAddress | tarea.py:121-122 | a message without a dot has address "N/A" |
| Ipv4.TrailingAddress | tarea.py:121-122 | a dotted quad after digit-free text is reported whole |
| Classifier.IsPppoeLog | tarea.py:102-112 | the gate passes exactly when the topics contain "pppoe" or "ppp" (case-sensitive), or the lower-cased message contains "pppoe", "ppp", "disconnected", "closed" or "terminating..." |
| Classifier.MentionsFrom | tarea.py:106-109 | the loop over the message terms is true exactly when one of the remaining terms occurs |
| Classifier.ClassifyEntry | tarea.py:93-131 | an entry without `time` or `message` gives nothing; an entry gives a record exactly when it passes the gate and some pattern matches; the record copies time, message and topics (default ""), names the stripped capture of the first matching pattern, and carries the extracted address |
| Classifier.FilterPppoeDisconnections | tarea.py:81-133 | the result is no longer than the input, and every record is the contribution of some entry |
| Classifier.FilterSelection | tarea.py:81-133 | the records are exactly the contributions of the contributing entries, one each, in the order of those entries |
| Classifier.FilterAppend | tarea.py:93-131 | filtering a concatenation concatenates the results: an entry's record depends on nothing around it |
| Classifier.DropsUnusable | tarea.py:94-113 | an entry without `time` or `message`, or one that fails the gate, can be removed without changing the result |
| Classifier.GateWithoutPppoe | tarea.py:102-108 | the gate is equivalent to the one without its two "pppoe" tests, since "ppp" occurs in "pppoe" |
| Classifier.MatchedIsRelevant | tarea.py:83-112 | every pattern contains one of the gate's message terms, so under ASCII case folding an entry that a pattern matches always passes the gate |
| Classifier.GateIsRedundant | tarea.py:101-117 | an entry gives a record exactly when it has `time` and `message` and some pattern matches; under ASCII case folding the gate never decides the outcome |
| Classifier.FirstPatternRoundTrip | tarea.py:84-130 | the message "pppoe NAME disconnected" gives the record named by the stripped NAME, with time, message and topics kept |
| Reconcile.Reconnected | tarea.py:298-306 | the report is an in-order selection of the active names, holding exactly the active names in the set |
| Reconcile.ReconnectedUnique | tarea.py:298-306 | for a map without repeated names, any in-order selection of its names holding exactly those in the set is the report |
| Reconcile.Check | tarea.py:292-317 | with an empty map nothing is reported and the set is kept; with a non-empty map the reconnected names are reported and the set is emptied |
| Reconcile.Record | tarea.py:323-326 | after a scan the set holds the old names plus every name of the scan's records, and nothing else |
| Reconcile.RecordAccumulates | tarea.py:323-326 | recording two scans in a row is recording their concatenation |
| Reconcile.Rerun | tarea.py:285-326 | one rerun: a pressed check reports, in map order, exactly the active names in the set; after a check of a non-empty map the set holds exactly the names of the new scan; a check of an empty map, or no check, reports nothing and the scan is added to the old set |
| Reconcile.ReportedAfterScan | tarea.py:298-326 | a name recorded by a scan and active at the next check is reported by that check |
| Reconcile.ReportedOnce | tarea.py:298-317 | a check that follows a check of a non-empty map, with no scan in between, reports nothing |
| Reconcile.PressedTwice | tarea.py:285-326 | of two pressed reruns with non-empty maps, the second reports exactly its active names that the first rerun's scan recorded, so a name the scan finds again is reported again |
| Examples.BobDisconnected | tarea.py:84-130 | "pppoe bob disconnected" yields one record for "bob" with address "N/A" |
| Examples.AliceAddress | tarea.py:121-122 | the address of "user alice disconnected from 10.0.0.5" is "10.0.0.5" |
| Examples.GreedyCapture | tarea.py:86 | the greedy capture runs to the last " disconnected" of the line |
| Examples.CaptureStopsAtLineBreak | tarea.py:86 | the capture does not cross a line break |
| Examples.CheckExample | tarea.py:298-317 | active {x, y} against the set {x, z} reports "x" and empties the set |

## Left out

- Router access (`connect_to_mikrotik`, `get_active_pppoe_users`, `get_mikrotik_logs`, tarea.py:23-76) is network I/O and is left out. The log entries and the active map are parameters instead. The active map is a sequence of `ActiveClient` in its iteration order, with distinct names where that matters (`DistinctNames`).
- The `[:time_minutes * 5]` cut of the fetched log (tarea.py:71) is left out. It chooses which entries are passed in, not what the filter does with them.
- `find_recent_disconnections` (tarea.py:135-148) only chains fetching, filtering and saving. `Reconcile.Rerun` takes its result as the `scan` parameter.
- The CSV log (`save_disconnections_to_log`, tarea.py:151-171) and the history deletion (tarea.py:329-333) are file I/O and clock reads, and are left out.
- `format_disconnections_for_display` (tarea.py:174-202) is pandas renaming and sorting for display, and is left out.
- The Streamlit page, the login and the secrets loading (tarea.py:9-20, 205-282) are presentation and are left out.
- `datetime.now()` in the filter (tarea.py:91) is computed but never used, and is left out.
- Patterns.Search: case-insensitive comparison covers ASCII letters only. Python's `re.IGNORECASE` also treats a few non-ASCII letters as equal to `s`, `i` and `k` (U+017F, U+0130, U+0131, U+212A). These can make a pattern match a message that the model does not match. For the message gate's `lower()` the ASCII model gives the same answer. Two non-ASCII characters lower-case to text with ASCII letters. U+212A gives `k`, which no gate term contains. U+0130 gives `i` followed by U+0307, and no gate term ends in `i`, so that pair can never complete a term.
- Classifier.GateIsRedundant: holds only under ASCII case folding. In Python the pattern search matches U+017F as `s`, but `lower()` keeps U+017F. So a message such as "user bob di\u017Fconnected" with empty topics matches the third pattern yet is dropped by the gate.
- Classifier.MatchedIsRelevant: holds only under ASCII case folding, for the reason given for `Classifier.GateIsRedundant`.
- Ipv4.ExtractIp: `\d` is taken as the ASCII digits 0-9. Python's `\d` on `str` also matches other Unicode decimal digits.
- Classifier.ClassifyEntry: entry values are taken to be strings. In the source, any non-string `message` raises an error (tarea.py:107 or 116), and so does a `None`, numeric or boolean `topics` (tarea.py:103). A list `topics` does not raise: `in` then tests list membership, not substrings, and the record carries the list.
- Reconcile.Check: the set is cleared only when the active map is non-empty, because the clear sits inside the branch at tarea.py:292-317. A failed or empty fetch leaves the set untouched, and the model keeps the clear inside that branch.
- Reconcile.ReportedOnce: a client is not reported only once per disconnection in the running program. Every rerun scans the log again (tarea.py:323-326), and the fetched log window (tarea.py:71) can hold the same disconnection line on each rerun. Such a line puts the name back, and the next check reports it again. `Reconcile.PressedTwice` states what two pressed reruns do.
- Reconcile.Rerun: the set is initialised to empty on the first run (tarea.py:285-286). That is the caller's choice of the initial `previous`, so it has no separate member.
