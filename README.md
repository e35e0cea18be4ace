# gocorosync in Dafny

A model of `corosync.go` from LINBIT's gocorosync package, with proofs. The
package does two things with corosync, the cluster engine:

- **It reads the quorum status of a running cluster.** `GetQuorumStatus` runs
  `corosync-quorumtool -s -p -i`. It accepts the run when it succeeds or exits
  with code 1, and fails with the run's error otherwise. It then reads three
  fields from the captured text, each with one fixed regular expression and
  Go's `FindStringSubmatch`, in this order:
  - `getQuorate`: `Quorate:\s*(Yes|No)`.
  - `getVotes`: `Total votes:\s*(\d+)`, converted with `strconv.Atoi`.
  - `getVotesExpected`: `Expected votes:\s*(\d)`, converted with `strconv.Atoi`.

  The first field that cannot be read is the error. On success the status
  carries the three values and an empty node list.
- **It renders a corosync configuration file.** `GenerateConfig` executes a
  fixed `text/template`:
  - a `totem` section that names the cluster;
  - a `nodelist` section with one `node` block per address, whose `nodeid` is
    the address's index plus one;
  - fixed `quorum` and `logging` sections.

The model has four modules:

- `Text` (`text.dfy`): character classes (`\s` is tab, newline, form feed,
  carriage return and space; `\d` is ASCII), greedy runs, and decimal numerals
  with their round trips.
- `Quorum` (`quorum.dfy`): the three patterns, the leftmost search, `Atoi` on a
  64-bit `int`, the extractors and the status assembly. Running the command is
  a parameter: a `CommandRun` holds how the run ended and its combined output.
  - Each pattern is written directly as string functions. `MatchAt` takes the
    label, the whole whitespace run, then the capture. `FindStringSubmatch`
    returns the capture at the first position where `MatchAt` succeeds.
  - The partner of these functions is a relational reference written apart
    from the scan. `Matches` allows any length of whitespace; `FirstMatch` and
    `NoMatch` follow the leftmost-match rule of Go's `regexp`. Lemmas prove the
    two definitions agree in both directions.
- `QuorumExamples` (`quorum_examples.dfy`): the three tests of
  `corosync_test.go`, proved on their exact report texts. It also proves
  statements about every numeral on those reports, and about the whole status
  read from a run that exits with code 1.
- `Config` (`config.dfy`): the template as constants and recursive
  concatenation. Its partner is a parser of the rendered text, `ParseConfig`,
  and a round-trip lemma shows that the rendered file reads back as the
  cluster name and the addresses in order, numbered from 1.

**Where the code departs from the intended format.** `getVotesExpected` uses
`\d` without `+` (corosync.go:130), so the capture is a single digit. The
package's intended format for this field is one or more digits, like total
votes, and the test at corosync_test.go:129-135 expects
`Expected votes:   134` to read as 134. The model follows the code:
`GetVotesExpected` returns the first digit only, and
`QuorumExamples.TestGetVotesExpected` proves that this report reads as 1, not
134.

## Model

| member | source | states |
|---|---|---|
| Text.SpaceRun | corosync.go:110 | the `\s*` run taken greedily over the whitespace class `Text.IsSpace` (the digit class `\d` is `Text.IsDigit`): its length is at most the text's length, every character in it is whitespace, and the character after it is not |
| Text.SpaceRunUnique | corosync.go:110 | a whitespace prefix followed by a non-whitespace character is exactly the greedy run |
| Text.DigitRun | corosync.go:120 | the `\d+` digit run taken greedily: all digits, and it stops at the end or at a non-digit |
| Text.DigitRunUnique | corosync.go:120 | a digit prefix followed by the end of the text or by a non-digit is exactly the greedy digit run |
| Text.LineLength | corosync.go:16 | the length of the first line: no newline in it, and a newline or the end of the text after it |
| Text.LineLengthUnique | corosync.go:16 | a prefix without a newline that is followed by one is exactly the first line |
| Text.Decimal | corosync.go:24 | a number printed in decimal: at least one digit, all of them digits, no leading zero |
| Text.DecimalRoundTrip | corosync.go:24 | the value of the printed numeral of `n` is `n` |
| Text.CanonicalRoundTrip | corosync.go:24 | printing the value of a numeral without leading zeros gives that numeral back |
| Text.DecimalPositive | corosync.go:24 | a numeral whose first digit is not 0 has a value of at least 1 |
| Quorum.Label | corosync.go:109-137 | the literal label of each pattern is non-empty, starts with a non-whitespace character and holds no newline |
| Quorum.Capture | corosync.go:109-137 | what the group captures is a word the group accepts (`Yes` or `No`, one or more digits, one digit) and starts the text after the whitespace |
| Quorum.CaptureIff | corosync.go:109-137 | the capture is `tok` exactly when `tok` is accepted, starts the text and, for `\d+`, is not followed by another digit |
| Quorum.MatchAt | corosync.go:109-137 | a match at the front of the text requires the label there and yields an accepted capture |
| Quorum.MatchAtIff | corosync.go:109-137 | the match at the front of the text captures `tok` exactly when the pattern matches there with some whitespace length and capture `tok` |
| Quorum.MatchFromIff | corosync.go:111 | the same equivalence at every position of the text |
| Quorum.FirstTrue | corosync.go:111 | the scan from `i` returns an index where a match starts and none before it, or none when no index from `i` on starts one |
| Quorum.FirstTrueIs | corosync.go:111 | the scan returns `k` when `k` starts a match and no index between `i` and `k` does |
| Quorum.FirstTrueNone | corosync.go:111 | the scan returns none when no index from `i` on starts a match |
| Quorum.Leftmost | corosync.go:111 | the leftmost match position: a match starts there and nowhere before; none means no position matches |
| Quorum.LeftmostIs | corosync.go:111 | a match at `k` with none before it is the leftmost match |
| Quorum.LeftmostNone | corosync.go:111 | no match at any position means no leftmost match |
| Quorum.FindStringSubmatch | corosync.go:111-112 | the search returns nothing or a capture the group accepts |
| Quorum.FindStringSubmatchSome | corosync.go:111-112 | the search returns `tok` exactly when some leftmost match of the reference definition captures `tok` |
| Quorum.FindStringSubmatchNone | corosync.go:111-112 | the search returns nothing exactly when the pattern matches nowhere (the `len(match) == 0` case) |
| Quorum.FirstMatchUnique | corosync.go:111 | the leftmost match is unique in position and capture |
| Quorum.Found | corosync.go:111-112 | a result of the search is the capture of a leftmost match, and every leftmost match captures it |
| Quorum.NotFound | corosync.go:111-112 | no result means no match and no leftmost match |
| Quorum.ShiftedSearch | corosync.go:111 | text in front that starts no match does not change what the search returns |
| Quorum.LabelFreeNoMatchAt | corosync.go:111 | no match starts inside text none of whose suffixes could begin the label |
| Quorum.LabelFreeNoMatch | corosync.go:111 | the same for every position of that text |
| Quorum.SkipLabelFree | corosync.go:111 | the search skips a label-free front part of the text |
| Quorum.PrependLabelFree | corosync.go:111 | putting label-free text in front of a report does not change what the search returns |
| Quorum.LabelFreeAppend | corosync.go:111 | two label-free pieces stay label-free when joined |
| Quorum.LabelFreeFindsNothing | corosync.go:111-112 | the search finds nothing in label-free text |
| Quorum.SkipNonMatch | corosync.go:111 | a first position that starts no match can be stepped over |
| Quorum.MatchAtLead | corosync.go:110 | after the label and whitespace (newlines included) comes a non-whitespace character: the match there is whatever the group captures from it |
| Quorum.LineAtStart | corosync.go:110-116 | text that begins with the label, whitespace and an accepted word yields that word; what follows the word is not looked at, so `Yesterday` reads as `Yes` |
| Quorum.Atoi | corosync.go:126 | the `strconv.Atoi` conversion: a value that fits a 64-bit `int`, or the syntax or range error for the input |
| Quorum.AtoiDigits | corosync.go:126 | on a non-empty digit string, Atoi gives its decimal value `Text.DecimalValue`, or the range error above the largest `int` |
| Quorum.AtoiDigit | corosync.go:136 | Atoi reads a single digit as its value |
| Quorum.AtoiRoundTrip | corosync.go:126 | Atoi reads back every printed `int`, negative ones included |
| Quorum.GetQuorate | corosync.go:109-117 | the only error is the invalid-output error of the quorate field |
| Quorum.GetQuorateSpec | corosync.go:109-117 | true exactly when the leftmost match captures `Yes`, false exactly when it captures `No`, and an error exactly when nothing matches |
| Quorum.GetVotes | corosync.go:119-127 | a result is between 0 and the largest `int`; an error is the invalid-output error or Atoi's range error |
| Quorum.GetVotesSpec | corosync.go:119-127 | `n` is returned exactly when the leftmost match captures digits with value `n` that fits an `int`; invalid output exactly when nothing matches; the range error exactly when the value does not fit |
| Quorum.GetVotesExpected | corosync.go:129-137 | a result is between 0 and 9; the only error is the invalid-output error |
| Quorum.GetVotesExpectedSpec | corosync.go:129-137 | `n` is returned exactly when the leftmost match captures one digit of value `n`; an error exactly when nothing matches |
| Quorum.ParseQuorumStatus | corosync.go:157-177 | a parsed status has no nodes |
| Quorum.GetQuorumStatus | corosync.go:139-178 | a failure of the run is returned with the run's own status |
| Quorum.GetQuorumStatusOk | corosync.go:139-178 | a status is returned exactly when the run may be parsed and all three extractors succeed; it holds their three values and no nodes |
| Quorum.GetQuorumStatusFailFast | corosync.go:140-172 | the error returned is that of the first step that fails, in the order run, quorate, total votes, expected votes |
| Quorum.BenignExitCodeMasked | corosync.go:143-149 | exit code 1 is treated exactly like success; which run outcomes go on to parsing is `Quorum.ProceedsToParse` |
| Quorum.OtherFailuresIgnoreOutput | corosync.go:142-152 | any other exit code, or an error that is not an exit, is returned and the output is never read |
| QuorumExamples.FreeTextLabelFree | corosync.go:111 | text without the label's first letter is label-free |
| QuorumExamples.FreeTextAppend | corosync.go:111 | text without the label's first letter stays so when joined |
| QuorumExamples.SkipFree | corosync.go:111 | the search passes over text without the label's first letter |
| QuorumExamples.SkipNear | corosync.go:111 | the search passes over a line that starts like the label but differs from it at one character |
| QuorumExamples.NearNoMatch | corosync.go:111 | a line that differs from the label at one of its characters starts no match |
| QuorumExamples.TokenLine | corosync.go:110-116 | a report that begins with the label and whitespace yields what the group captures after them |
| QuorumExamples.NoTokenLine | corosync.go:110-114 | a report whose one label is followed by a word the group does not accept yields nothing |
| QuorumExamples.LeadNoMatch | corosync.go:110 | the label and whitespace followed by a non-accepted word start no match |
| QuorumExamples.FreeFindsNothing | corosync.go:111-112 | the search finds nothing in text without the label's first letter |
| QuorumExamples.YesCapture | corosync.go:110 | the group captures `Yes` from text starting with `Yes` |
| QuorumExamples.NoCapture | corosync.go:110 | the group captures `No` from text starting with `No` |
| QuorumExamples.DigitsCapture | corosync.go:120 | `\d+` captures a whole numeral that is followed by a non-digit |
| QuorumExamples.DigitCapture | corosync.go:130 | `\d` captures only the first digit of a numeral |
| QuorumExamples.QuorateReportSearch | corosync_test.go:34-46 | the search for `Quorate:` in the test's report passes over the blank line and the seven lines before the quorate line |
| QuorumExamples.TestGetQuorate | corosync_test.go:33-67 | the test's report gives true with `Yes`, false with `No`, and the invalid-output error with `Something invalid` |
| QuorumExamples.QuorateFirst | corosync_test.go:70-71 | the vote reports start with a quorate line that reads `Yes` |
| QuorumExamples.TotalVotesSearch | corosync_test.go:70-77 | the search for `Total votes:` passes over every line before the total-votes line |
| QuorumExamples.ExpectedVotesSearch | corosync_test.go:107-112 | the search for `Expected votes:` passes over every line before the expected-votes line |
| QuorumExamples.TotalVotesToken | corosync_test.go:77 | any numeral on the total-votes line is captured whole |
| QuorumExamples.ExpectedVotesToken | corosync_test.go:112 | only the first digit of the numeral on the expected-votes line is captured |
| QuorumExamples.VotesNumeral | corosync_test.go:84-99 | every numeral that fits an `int` on the total-votes line of the test's report reads as its value |
| QuorumExamples.VotesInvalid | corosync_test.go:100-103 | `invalid` on the total-votes line is the invalid-output error |
| QuorumExamples.TestGetVotes | corosync_test.go:69-104 | the test's report gives 3 for `3`, 134 for `134`, and the invalid-output error for `invalid` |
| QuorumExamples.ExpectedNumeral | corosync_test.go:121-135 | whatever numeral is on the expected-votes line of the test's report, its first digit is read |
| QuorumExamples.OneDigit | corosync.go:136 | Atoi of the first digit of a numeral is that digit's value |
| QuorumExamples.ExpectedInvalid | corosync_test.go:137-140 | `invalid` on the expected-votes line is the invalid-output error |
| QuorumExamples.TestGetVotesExpected | corosync_test.go:106-141 | the test's report gives 3 for `3` and the invalid-output error for `invalid`; for `134` it gives 1 and not the 134 the test expects |
| QuorumExamples.ExpectedReportStatus | corosync.go:139-178 | a run that exits with code 1 on the report of TestGetVotesExpected gives quorate, 12345 total votes, and the first digit of the expected votes |
| Config.GenerateConfig | corosync.go:38-54 | the rendered file starts with the totem header, the cluster name verbatim and the end of that line |
| Config.ParseNode | corosync.go:22-25 | reading a node block gives an address on one line and leaves less text than it was given |
| Config.ParseNodes | corosync.go:21-26 | the closing footer alone reads as no nodes; every address read is on one line |
| Config.ParseConfig | corosync.go:14-36 | a cluster name and addresses read back are each on one line |
| Config.LineBeforeNewline | corosync.go:16 | text on one line followed by a newline is read as that line |
| Config.DigitsBeforeClose | corosync.go:24-25 | the printed node identifier followed by the close of the node block reads back as its value |
| Config.ParseNodeOf | corosync.go:22-25 | a rendered node block reads back as its address and identifier, and leaves the text after it |
| Config.NodeBlockNotFooter | corosync.go:22-26 | a node block is never confused with the end of the node list |
| Config.ParseNodeBlock | corosync.go:22-25 | a node block in front of more text adds its node in front of what that text reads as |
| Config.ParseNodeBlocks | corosync.go:21-26 | the node blocks of a list of one-line addresses, then the footer, read back as those addresses |
| Config.NumberedCons | corosync.go:24 | the first address numbered `i + 1` in front of the rest numbered from `i + 2` is the list numbered from `i + 1` |
| Config.ConfigRoundTrip | corosync.go:14-54 | a file rendered from a name and addresses without newlines reads back as that name, with one node per address in input order, each address unchanged and numbered with its index plus one |
| Config.NodeIdsDistinct | corosync.go:40-42 | the identifiers run from 1 to the number of addresses, each used once |
| Config.NodeBlocksAppend | corosync.go:21-25 | the `{{range}}` body is `Config.NodeBlock`, folded over the addresses by `Config.NodeBlocks`; adding an address at the end adds one block at the end, numbered one past the others, and leaves the earlier blocks unchanged |
| Config.EmptyNodeList | corosync.go:14-36 | with no addresses the file is the header, the name, the totem settings, `nodelist {` closed on the next line, then the quorum and logging sections |
| Config.EmptyNodeListParse | corosync.go:21-26 | with no addresses the file reads back with the name and no nodes |

## Left out

- `GenerateAuthkey` (corosync.go:59-65) only runs `corosync-keygen` and returns a constant path, so there is nothing to model beyond the run itself.
- Running the command (corosync.go:140-141) is not modelled: the outcome of `CombinedOutput` is the `CommandRun` parameter.
- The `regexp` and `text/template` libraries are not modelled as engines. The three fixed patterns and the one fixed template are written out directly. `template.Must` on the constant template and the ignored error of `Execute` (corosync.go:44, 51) cannot fail on this template.
- Printing a `*net.IP` is not modelled, including `<nil>` for a nil pointer. Each address is the string it prints as.
- The membership table is not read, because the source does not read it either (corosync.go:174-175): the node list is always empty. `CorosyncNode` and `CorosyncQuorumNode` are represented by `QuorumNode`, which is never produced.
- The wording of error messages is not modelled, including the "quoruate" typo at corosync.go:113. An error names the field that could not be read, or carries the run status or the number that Atoi rejected.
- Quorum.Atoi: for input of 19 or more characters, Go reads the digits against the unsigned 64-bit limit and stops at whichever comes first: a non-digit (a syntax error) or a digit that takes the value past 2^64 - 1 (a range error). The model checks the syntax of the whole string first. The two differ only when the digits pass 2^64 - 1 before a non-digit: Go reports a range error there, the model a syntax error. The extractors only ever pass digit strings, so this never arises for them.
- Quorum.Atoi: Go's `int` is taken to be 64 bits wide. On a 32-bit platform the range limit is smaller.
- Text is modelled as a sequence of characters, not UTF-8 bytes. The patterns and the template are ASCII, so matching and rendering do not depend on the encoding.
- The values Go returns beside an error are not modelled: `false` from getQuorate (corosync.go:113), `0` from getVotes and getVotesExpected (corosync.go:123, 133), and the clamped 9223372036854775807 that Atoi returns with its range error and getVotes passes on (corosync.go:126). A `Result` holds either a value or an error, and GetQuorumStatus discards those values anyway.
- Config.ConfigRoundTrip and Config.EmptyNodeListParse require a cluster name and addresses without newlines. The renderer itself accepts any text, but the parser that reads a file back locates lines by their newlines.
- Config.GenerateConfig: its own contract states only the header and cluster-name line. The shape of the rest of the file is stated by ConfigRoundTrip and EmptyNodeList.
