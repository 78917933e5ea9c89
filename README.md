# matcher_fzf, modelled in Dafny

This project models denite's `matcher_fzf` filter. The filter narrows a list
of candidates by handing their words to the external `fzf` binary in filter
mode (`fzf +s -f <input>`). It then keeps every candidate whose `word` occurs
in what fzf printed. The filter finds the binary lazily, on the first call
that has work to do: first on the executable search path (`which('fzf')`),
then as the first match of `bin/fzf` (`bin/fzf.exe` on Windows) under
Vim's runtime path. If both lookups fail, it reports two errors, returns an
empty list, and disables itself for good.

Files:

- `selection.dfy`, module `Selection`: the final list comprehension
  (`Select`), Python's substring `in` (`Contains`), the newline join that
  builds fzf's standard input (`JoinLines`), and the lemmas that pin the
  selection down: it is an order-preserving subsequence, it keeps duplicates,
  and its membership rule is exact.
- `matcher_fzf.dfy`, module `MatcherFzf`:
  - the three private fields as a `FilterState`;
  - the outside world as a `Host` value of functions (`which`, `globruntime`,
    the process's `communicate`, and the codec's encode and decode);
  - one call of `filter` as the function `Step`, which returns the new
    fields, the result and the list of `Effect`s (lookups, spawned process,
    error messages), with the lemmas `StepGuards` and `StepDisabling`;
  - a session of calls as `Replay`;
  - the class `Filter`, whose method `Filter` updates the fields in place
    and is proved to agree with `Step`.

Two behaviours of the code are easy to misread; the model follows the code:

- A disabled filter returns its candidates unchanged (matcher_fzf.py:28-30).
  It does not return an empty list. Only the call on which discovery fails
  returns `[]` (`MissingBinarySession`).
- `x['word'] in fzf_result` tests for a substring of the decoded output
  (matcher_fzf.py:53, 65). It does not test for a whole output line. A
  candidate `app` survives when fzf printed only `apple`
  (`PrefixOfLineIsKept`). Every printed line still keeps its candidate
  (`LineIsKept`).

## Model

| member | source | states |
|---|---|---|
| `Selection.Select` | rplugin/python3/denite/filter/matcher_fzf.py:53 | the selection is no longer than the candidates, and every element it returns is one of the candidates whose word occurs in the fzf output |
| `Selection.SelectIsSubsequence` | rplugin/python3/denite/filter/matcher_fzf.py:53 | the selection is a subsequence of the candidates: original order, nothing invented |
| `Selection.SelectMembership` | rplugin/python3/denite/filter/matcher_fzf.py:53 | a candidate is in the result if and only if it is in the input and its word is a substring of the fzf output |
| `Selection.SelectCounts` | rplugin/python3/denite/filter/matcher_fzf.py:53 | duplicates are kept: a kept candidate appears as often as in the input, a dropped one not at all |
| `Selection.SelectUnique` | rplugin/python3/denite/filter/matcher_fzf.py:53 | any subsequence of the candidates with exactly those multiplicities equals the selection, so the three properties above determine the result |
| `Selection.JoinedLineOccurs` | rplugin/python3/denite/filter/matcher_fzf.py:62 | every word joined with `'\n'` occurs as a substring of the joined text |
| `Selection.LineIsKept` | rplugin/python3/denite/filter/matcher_fzf.py:53 | a candidate whose word fzf prints as one of its newline-joined lines is kept |
| `Selection.PrefixOfLineIsKept` | rplugin/python3/denite/filter/matcher_fzf.py:65 | membership is a substring test on the decoded output: `app` is kept when fzf printed only the line `apple` |
| `Selection.FruitExample` | rplugin/python3/denite/filter/matcher_fzf.py:53 | candidates apple, banana, grape with output `apple\ngrape` give apple, grape, in that order |
| `MatcherFzf.Discover` | rplugin/python3/denite/filter/matcher_fzf.py:33-38 | `which('fzf')` is asked first; the runtime path is searched (for `bin/fzf`, `.exe` on Windows) exactly when `which` gives no usable path, and then its first match is the binary; exactly one lookup of each kind is made, so the effects are the `which` lookup alone or followed by the one runtime-path search, and discovery does nothing but look things up |
| `MatcherFzf.DiscoverReportsNothing` | rplugin/python3/denite/filter/matcher_fzf.py:33-38 | discovery sends no error message, whether or not it finds a binary |
| `MatcherFzf.Delegate` | rplugin/python3/denite/filter/matcher_fzf.py:58-65 | fzf is spawned once with `+s -f <input>` and the encoded newline-joined words on stdin; the decoded stdout is the result; every later effect is an error message; no discovery happens |
| `MatcherFzf.DelegateErrors` | rplugin/python3/denite/filter/matcher_fzf.py:63-64 | the only message a run sends is `stderr: ` plus the decoded stderr, and it is sent exactly when stderr is non-empty |
| `MatcherFzf.PyJoin` | rplugin/python3/denite/filter/matcher_fzf.py:64 | `str.join` succeeds exactly when every item is a `str`, and otherwise fails on the first item that is not |
| `MatcherFzf.StderrAsWrittenRaises` | rplugin/python3/denite/filter/matcher_fzf.py:63-64 | as written, every non-empty stderr makes the report raise a `TypeError` on its first byte |
| `MatcherFzf.StderrReport` | rplugin/python3/denite/filter/matcher_fzf.py:63-64 | corrected report: it never raises, it is silent exactly when stderr is empty, and otherwise it reports `stderr: ` followed by the decoded text |
| `MatcherFzf.Step` | rplugin/python3/denite/filter/matcher_fzf.py:32-53 | one call keeps the fields consistent (never both initialised and disabled). A call that runs discovery stores exactly the binary `Discover` picks, or disables the filter with no binary when there is none. A call with work to do on an initialised filter returns the selection over the fzf output of the remembered binary, and its effects are the discovery's (on the first such call only) followed by the fzf run's |
| `MatcherFzf.StepGuards` | rplugin/python3/denite/filter/matcher_fzf.py:27-53 | every call returns a subsequence of the candidates. An empty list, an empty input or a disabled filter returns the candidates and changes nothing. An initialised or disabled filter keeps its fields. Discovery runs exactly on a call with work to do on an uninitialised filter |
| `MatcherFzf.StepDisabling` | rplugin/python3/denite/filter/matcher_fzf.py:40-48 | the call that disables returns `[]`, spawns nothing, reports exactly the two messages `fzf binary not found` and `You must install/build fzf`, in that order, and its effects are exactly `Discover`'s lookups followed by those two messages |
| `MatcherFzf.DiscoveryFailureDisables` | rplugin/python3/denite/filter/matcher_fzf.py:40-48 | a call that runs discovery disables the filter if and only if neither `which` nor the runtime path yields a usable binary |
| `MatcherFzf.Replay` | rplugin/python3/denite/filter/matcher_fzf.py:27-53 | along any sequence of calls the fields stay consistent, and every call returns a subsequence of its candidates |
| `MatcherFzf.SettledStateIsFinal` | rplugin/python3/denite/filter/matcher_fzf.py:32-47 | once initialised or disabled, the fields never change again, so the binary found first stays in use |
| `MatcherFzf.DisabledPassesThrough` | rplugin/python3/denite/filter/matcher_fzf.py:28-30 | after disabling, every later call returns its candidates unchanged, with no lookup, process or message |
| `MatcherFzf.DiscoveryAtMostOnce` | rplugin/python3/denite/filter/matcher_fzf.py:32-42 | in any sequence of calls discovery runs at most once, and never once the filter is initialised or disabled |
| `MatcherFzf.MissingBinarySession` | rplugin/python3/denite/filter/matcher_fzf.py:28-48 | with no binary anywhere, the first call looks in both places, reports the two messages and returns `[]`; the second call returns its candidates |
| `MatcherFzf.FruitSession` | rplugin/python3/denite/filter/matcher_fzf.py:27-53 | with fzf on the search path printing `apple\ngrape`, a fresh filter returns apple, grape and becomes initialised with that path |
| `MatcherFzf.Filter.constructor` | rplugin/python3/denite/filter/matcher_fzf.py:17-25 | name `matcher_fzf`, description `fzf matcher`, not initialised, no binary, not disabled |
| `MatcherFzf.Filter.Filter` | rplugin/python3/denite/filter/matcher_fzf.py:27-53 | the in-place update of the three fields, the returned list and the effects are exactly those of `Step` on the old fields; the consistency invariant is kept |
| `MatcherFzf.Filter.GetFzfResult` | rplugin/python3/denite/filter/matcher_fzf.py:58-65 | returns the decoded fzf output and appends exactly the effects of `Delegate` for the remembered binary |

## Left out

- `convert_pattern` (matcher_fzf.py:55-56) only forwards to `convert2fuzzy_pattern` in `denite.util`. `denite.util` is not part of this model.
- `which`, `globruntime`, the fzf process and the text codec are parameters (`Host`). Their behaviour is whatever the caller supplies. This covers the file-system search, the fuzzy matching fzf performs and the meaning of `+s -f`.
- A failure to start the process, to write to it or to decode its output propagates as a Python exception. The model does not capture that: `communicate` and `decode` are total functions. The process's exit status is ignored by the code and so by the model.
- The editor handle `vim`, the `Base` superclass and the `error` sink are represented only by the recorded `Error` effects, which live in a ghost field of the class.
- Candidates are dictionaries with arbitrary values. The model keeps `word` and a string-to-string map of the other entries, which the filter never reads.
- Text is a sequence of characters. Encodings are opaque functions, and `bytes` are `seq<bv8>`.
- `MatcherFzf.Filter.GetFzfResult`: reports standard error with the corrected `StderrReport` behaviour instead of raising (see Findings).
- `MatcherFzf.Delegate`: uses the corrected standard-error report. As written, a non-empty standard error raises `TypeError` (matcher_fzf.py:64) instead of reporting `stderr: ` plus the text, so no result is returned.
- `MatcherFzf.DelegateErrors`: states the corrected standard-error report. As written, the report raises `TypeError` (matcher_fzf.py:64) instead of sending a message.
- `MatcherFzf.Step`: uses the corrected report through `Delegate`. As written, a non-empty standard error makes the call raise instead of returning the selection. On a first call the binary has by then already been stored (matcher_fzf.py:41-42).
- `MatcherFzf.Filter.Filter`: agrees with `Step` and so carries the same correction: on a non-empty standard error it returns the selection where the code raises `TypeError`.

## Findings

| source | as written | input that shows it | evidently intended | confidence | as-written member | corrected member |
|---|---|---|---|---|---|---|
| rplugin/python3/denite/filter/matcher_fzf.py:63-64 | `'\n'.join(stderr)` joins the raw `bytes` from `communicate`. Iterating `bytes` yields `int`s, so `str.join` raises `TypeError` and the filter call fails | fzf writes `b"x"` to standard error (any non-empty stderr) | report `stderr: ` plus the decoded text and return the matches from standard output | high (not executed) | `MatcherFzf.StderrAsWrittenRaises` | `MatcherFzf.StderrReport` |
