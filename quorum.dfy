/** The quorum-status scraper of corosync.go: the three field extractors that
    read the captured report of `corosync-quorumtool -s -p -i`, the
    `strconv.Atoi` conversion two of them end in, and the assembly of a
    QuorumStatus together with the exit-code policy of the command run.

    Each extractor applies one fixed regular expression with Go's
    `FindStringSubmatch`, which returns the leftmost match. The patterns are
    written out here as functions on strings, not through a regular
    expression engine:

      Quorate:\s*(Yes|No)      Total votes:\s*(\d+)      Expected votes:\s*(\d)
*/
module Quorum {
  import opened Text

  /** The three fields of the report that are read. */
  datatype Field = Quorate | TotalVotes | ExpectedVotes

  /** How the run of the quorum tool ended, as `CombinedOutput` reports it:
      no error, an `*exec.ExitError` with its exit code (-1 when a signal
      ended the process), or any other error (the program could not be
      started, its output could not be collected). */
  datatype RunStatus = Success | ExitError(code: int) | LaunchError

  /** The result of running the quorum tool: its status and its standard
      output and standard error, captured together. */
  datatype CommandRun = CommandRun(status: RunStatus, output: string)

  datatype Error =
    | CommandFailed(status: RunStatus)  // the error of the run, returned as it is
    | InvalidOutput(field: Field)       // ErrInvalidOutput, in a message naming the field
    | NumberSyntax(num: string)         // strconv.ErrSyntax from Atoi, on input num
    | NumberRange(num: string)          // strconv.ErrRange from Atoi, on input num

  datatype Result<T> = Ok(value: T) | Err(error: Error)

  // ---------------------------------------------------------------------
  // The three patterns

  /** The literal text each pattern starts with. */
  function Label(f: Field): (l: string)
    ensures |l| > 0 && !IsSpace(l[0]) && '\n' !in l
  {
    match f
    case Quorate => "Quorate:"
    case TotalVotes => "Total votes:"
    case ExpectedVotes => "Expected votes:"
  }

  /** The words the capture group of each pattern accepts: `Yes|No`, `\d+`
      and `\d`. */
  predicate Capturable(f: Field, tok: string) {
    match f
    case Quorate => tok == "Yes" || tok == "No"
    case TotalVotes => |tok| > 0 && AllDigits(tok)
    case ExpectedVotes => |tok| == 1 && IsDigit(tok[0])
  }

  /** What the capture group takes from the front of `u`, the text after the
      whitespace: the alternatives are tried in order, and `\d+` takes every
      digit it can. */
  function Capture(f: Field, u: string): (r: Option<string>)
    ensures r.Some? ==> Capturable(f, r.value) && r.value <= u
  {
    match f
    case Quorate =>
      if "Yes" <= u then Some("Yes") else if "No" <= u then Some("No") else None
    case TotalVotes =>
      var n := DigitRun(u);
      if n > 0 then Some(u[..n]) else None
    case ExpectedVotes =>
      if u != [] && IsDigit(u[0]) then Some(u[..1]) else None
  }

  /** The capture of a match of the pattern of `f` that starts at the front of
      `s`, if there is one. The whitespace run is taken whole: every word the
      group accepts starts with a character that is not whitespace, so no
      shorter run can lead to a match (lemma MatchAtIff). */
  function MatchAt(f: Field, s: string): (r: Option<string>)
    ensures r.Some? ==> Label(f) <= s && Capturable(f, r.value)
  {
    var l := Label(f);
    if l <= s then
      var t := s[|l|..];
      Capture(f, t[SpaceRun(t)..])
    else None
  }

  // ---------------------------------------------------------------------
  // The patterns as the regular expression defines them

  /** `tok` is what the group of `f` captures when it starts at the front of
      `u`. Of the words of `\d+` that `u` starts with, the longest is the one
      the leftmost-first matcher prefers. */
  ghost predicate TokenFits(f: Field, tok: string, u: string) {
    Capturable(f, tok) && tok <= u &&
    (f == TotalVotes ==> |tok| == |u| || !IsDigit(u[|tok|]))
  }

  /** The pattern of `f` matches at the front of `s`, with `m` characters of
      whitespace between the label and the capture `tok`. */
  ghost predicate MatchesWith(f: Field, s: string, m: nat, tok: string) {
    var l := Label(f);
    l <= s && m <= |s| - |l| && AllSpaces(s[|l|..][..m]) && TokenFits(f, tok, s[|l|..][m..])
  }

  ghost predicate Matches(f: Field, s: string, tok: string) {
    exists m: nat :: MatchesWith(f, s, m, tok)
  }

  /** The pattern of `f` matches at position `j` of `s`, capturing `tok`. */
  ghost predicate MatchesFrom(f: Field, s: string, j: nat, tok: string)
    requires j <= |s|
  {
    Matches(f, s[j..], tok)
  }

  /** The leftmost match of the pattern of `f` in `s` starts at `k` and
      captures `tok`. */
  ghost predicate FirstMatch(f: Field, s: string, k: nat, tok: string) {
    k <= |s| && MatchesFrom(f, s, k, tok) &&
    forall j: nat, t: string :: j < k ==> !MatchesFrom(f, s, j, t)
  }

  /** The pattern of `f` matches nowhere in `s`. */
  ghost predicate NoMatch(f: Field, s: string) {
    forall k: nat, t: string :: k <= |s| ==> !MatchesFrom(f, s, k, t)
  }

  lemma CaptureIff(f: Field, u: string, tok: string)
    ensures Capture(f, u) == Some(tok) <==> TokenFits(f, tok, u)
  {
    match f
    case Quorate =>
      if tok == "No" && tok <= u {
        assert u[0] == 'N';
      }
    case TotalVotes =>
      if TokenFits(f, tok, u) {
        assert u[..|tok|] == tok;
        DigitRunUnique(u, |tok|);
      }
    case ExpectedVotes =>
      if TokenFits(f, tok, u) {
        assert tok == u[..1];
      }
  }

  /** The computed match agrees with the regular expression's definition. */
  lemma MatchAtIff(f: Field, s: string, tok: string)
    ensures MatchAt(f, s) == Some(tok) <==> Matches(f, s, tok)
  {
    var l := Label(f);
    if l <= s {
      var t := s[|l|..];
      var n := SpaceRun(t);
      if MatchAt(f, s) == Some(tok) {
        CaptureIff(f, t[n..], tok);
        assert MatchesWith(f, s, n, tok);
      }
      if Matches(f, s, tok) {
        var m: nat :| MatchesWith(f, s, m, tok);
        assert t[m..][0] == tok[0];
        SpaceRunUnique(t, m);
        CaptureIff(f, t[m..], tok);
      }
    }
  }

  // ---------------------------------------------------------------------
  // The leftmost match

  /** The capture of a match of the pattern of `f` at position `j` of `s`. */
  function MatchFrom(f: Field, s: string, j: nat): (r: Option<string>)
    requires j <= |s|
  {
    MatchAt(f, s[j..])
  }

  lemma MatchFromIff(f: Field, s: string, j: nat)
    requires j <= |s|
    ensures forall tok :: MatchFrom(f, s, j) == Some(tok) <==> MatchesFrom(f, s, j, tok)
  {
    forall tok {
      MatchAtIff(f, s[j..], tok);
    }
  }

  /** Which positions of `s`, from 0 to `|s|`, start a match of the pattern
      of `f`. */
  function Starts(f: Field, s: string): (m: seq<bool>)
    ensures |m| == |s| + 1
    ensures forall j :: 0 <= j <= |s| ==> (m[j] <==> MatchFrom(f, s, j).Some?)
  {
    seq(|s| + 1, j requires 0 <= j <= |s| => MatchFrom(f, s, j).Some?)
  }

  /** The first index at or after `i` where `m` holds: the scan the matcher
      makes from left to right. */
  function FirstTrue(m: seq<bool>, i: nat): (r: Option<nat>)
    requires i <= |m|
    ensures r.Some? ==> i <= r.value < |m| && m[r.value]
    ensures r.Some? ==> forall j :: i <= j < r.value ==> !m[j]
    ensures r.None? ==> forall j :: i <= j < |m| ==> !m[j]
    decreases |m| - i
  {
    if i == |m| then None
    else if m[i] then Some(i)
    else FirstTrue(m, i + 1)
  }

  /** The position of the leftmost match of the pattern of `f` in `s`. */
  function Leftmost(f: Field, s: string): (r: Option<nat>)
    ensures r.Some? ==> r.value <= |s| && MatchFrom(f, s, r.value).Some?
    ensures r.Some? ==> forall j :: 0 <= j < r.value ==> MatchFrom(f, s, j).None?
    ensures r.None? ==> forall j :: 0 <= j <= |s| ==> MatchFrom(f, s, j).None?
  {
    FirstTrue(Starts(f, s), 0)
  }

  /** The scan stops at the first index where `m` holds. */
  lemma {:induction false} FirstTrueIs(m: seq<bool>, i: nat, k: nat)
    requires i <= k < |m| && m[k]
    requires forall j :: i <= j < k ==> !m[j]
    ensures FirstTrue(m, i) == Some(k)
    decreases k - i
  {
    if i < k {
      FirstTrueIs(m, i + 1, k);
    }
  }

  lemma {:induction false} FirstTrueNone(m: seq<bool>, i: nat)
    requires i <= |m|
    requires forall j :: i <= j < |m| ==> !m[j]
    ensures FirstTrue(m, i).None?
    decreases |m| - i
  {
    if i < |m| {
      FirstTrueNone(m, i + 1);
    }
  }

  /** The leftmost match is at `k` when the pattern matches at `k` and
      nowhere before. */
  lemma LeftmostIs(f: Field, s: string, k: nat)
    requires k <= |s| && MatchFrom(f, s, k).Some?
    requires forall j :: 0 <= j < k ==> MatchFrom(f, s, j).None?
    ensures Leftmost(f, s) == Some(k)
  {
    var m := Starts(f, s);
    assert m[k];
    FirstTrueIs(m, 0, k);
  }

  lemma LeftmostNone(f: Field, s: string)
    requires forall j :: 0 <= j <= |s| ==> MatchFrom(f, s, j).None?
    ensures Leftmost(f, s).None?
  {
    FirstTrueNone(Starts(f, s), 0);
  }

  /** `FindStringSubmatch` of Go's regexp for the pattern of `f`, reduced to
      the one group it captures. */
  function FindStringSubmatch(f: Field, s: string): (r: Option<string>)
    ensures r.Some? ==> Capturable(f, r.value)
  {
    match Leftmost(f, s)
    case None => None
    case Some(k) => MatchFrom(f, s, k)
  }

  /** The search returns the capture of the leftmost match, and only that. */
  lemma FindStringSubmatchSome(f: Field, s: string, tok: string)
    ensures FindStringSubmatch(f, s) == Some(tok) <==> exists k: nat :: FirstMatch(f, s, k, tok)
  {
    var r := Leftmost(f, s);
    if FindStringSubmatch(f, s) == Some(tok) {
      var k := r.value;
      assert MatchAt(f, s[k..]) == Some(tok);
      MatchAtIff(f, s[k..], tok);
      forall j: nat, t | j < k ensures !MatchesFrom(f, s, j, t) {
        assert MatchFrom(f, s, j).None?;
        MatchAtIff(f, s[j..], t);
      }
      assert FirstMatch(f, s, k, tok);
    }
    if k: nat :| FirstMatch(f, s, k, tok) {
      assert Matches(f, s[k..], tok);
      MatchAtIff(f, s[k..], tok);
      assert MatchFrom(f, s, k) == Some(tok);
      var k' := r.value;
      var t := MatchFrom(f, s, k').value;
      MatchAtIff(f, s[k'..], t);
      assert MatchesFrom(f, s, k', t);
      assert k' == k;
    }
  }

  /** The search fails exactly when the pattern matches nowhere. */
  lemma FindStringSubmatchNone(f: Field, s: string)
    ensures FindStringSubmatch(f, s) == None <==> NoMatch(f, s)
  {
    var r := Leftmost(f, s);
    if r.Some? {
      var t := MatchFrom(f, s, r.value).value;
      MatchAtIff(f, s[r.value..], t);
      assert MatchesFrom(f, s, r.value, t);
    } else {
      forall k: nat, t | k <= |s| ensures !MatchesFrom(f, s, k, t) {
        assert MatchFrom(f, s, k).None?;
        assert MatchAt(f, s[k..]).None?;
        MatchAtIff(f, s[k..], t);
        assert !Matches(f, s[k..], t);
      }
    }
  }

  /** There is one leftmost match: its position and its capture are
      determined by the text. */
  lemma FirstMatchUnique(f: Field, s: string, k1: nat, t1: string, k2: nat, t2: string)
    requires FirstMatch(f, s, k1, t1) && FirstMatch(f, s, k2, t2)
    ensures k1 == k2 && t1 == t2
  {
    MatchFromIff(f, s, k1);
    MatchFromIff(f, s, k2);
  }

  // ---------------------------------------------------------------------
  // Text that cannot hold a match

  /** No suffix of `pre` can be the start of the label of `f`, whatever text
      follows it. */
  predicate LabelFree(f: Field, pre: string) {
    forall j :: 0 <= j < |pre| ==> !(Label(f) <= pre[j..]) && !(pre[j..] <= Label(f))
  }

  /** Two strings neither of which is a prefix of the other differ at an
      index inside both. */
  lemma Differ(l: string, u: string) returns (k: nat)
    requires !(l <= u) && !(u <= l)
    ensures k < |l| && k < |u| && l[k] != u[k]
  {
    if l == [] || u == [] {
      assert false;
    } else if l[0] != u[0] {
      k := 0;
    } else {
      assert !(l[1..] <= u[1..]) && !(u[1..] <= l[1..]);
      k := Differ(l[1..], u[1..]);
      k := k + 1;
    }
  }

  /** No match of the pattern of `f` starts before position `d` of `w`. */
  predicate NoMatchBefore(f: Field, w: string, d: nat)
    requires d <= |w|
  {
    forall j :: 0 <= j < d ==> MatchFrom(f, w, j).None?
  }

  /** A search in `w` finds what a search in `w[d..]` finds when the first
      `d` characters of `w` start no match. */
  lemma ShiftedSearch(f: Field, w: string, d: nat)
    requires d <= |w| && NoMatchBefore(f, w, d)
    ensures FindStringSubmatch(f, w) == FindStringSubmatch(f, w[d..])
  {
    var s := w[d..];
    SuffixPositions(f, w, d);
    var r := Leftmost(f, s);
    if r.Some? {
      var k := r.value;
      forall j | 0 <= j < d + k ensures MatchFrom(f, w, j).None? {
        if j >= d {
          assert MatchFrom(f, w, j) == MatchFrom(f, s, j - d);
        }
      }
      assert MatchFrom(f, w, d + k) == MatchFrom(f, s, k);
      LeftmostIs(f, w, d + k);
    } else {
      forall j | 0 <= j <= |w| ensures MatchFrom(f, w, j).None? {
        if j >= d {
          assert MatchFrom(f, w, j) == MatchFrom(f, s, j - d);
        }
      }
      LeftmostNone(f, w);
    }
  }

  /** No match starts inside text that cannot start a label, whatever
      follows it. */
  lemma LabelFreeNoMatchAt(f: Field, w: string, d: nat, j: nat)
    requires d <= |w| && LabelFree(f, w[..d]) && j < d
    ensures MatchFrom(f, w, j).None?
  {
    var l := Label(f);
    var u := w[..d][j..];
    if |u| >= |l| {
      assert w[j..][..|l|] == u[..|l|];
    } else {
      assert w[j..][..|u|] == u;
    }
  }

  lemma LabelFreeNoMatch(f: Field, w: string, d: nat)
    requires d <= |w| && LabelFree(f, w[..d])
    ensures NoMatchBefore(f, w, d)
  {
    forall j | 0 <= j < d ensures MatchFrom(f, w, j).None? {
      LabelFreeNoMatchAt(f, w, d, j);
    }
  }

  /** Past position `d`, positions of `w` are positions of `w[d..]`. */
  lemma SuffixPositions(f: Field, w: string, d: nat)
    requires d <= |w|
    ensures forall j :: d <= j <= |w| ==> MatchFrom(f, w, j) == MatchFrom(f, w[d..], j - d)
  {
    forall j | d <= j <= |w| ensures MatchFrom(f, w, j) == MatchFrom(f, w[d..], j - d) {
      assert w[j..] == w[d..][j - d..];
    }
  }

  /** Text in front of the report that cannot start a label does not change
      what the search finds. */
  lemma SkipLabelFree(f: Field, w: string, d: nat)
    requires d <= |w| && LabelFree(f, w[..d])
    ensures FindStringSubmatch(f, w) == FindStringSubmatch(f, w[d..])
  {
    LabelFreeNoMatch(f, w, d);
    ShiftedSearch(f, w, d);
  }

  lemma PrependLabelFree(f: Field, pre: string, s: string)
    requires LabelFree(f, pre)
    ensures FindStringSubmatch(f, pre + s) == FindStringSubmatch(f, s)
  {
    var w := pre + s;
    assert w[..|pre|] == pre && w[|pre|..] == s;
    SkipLabelFree(f, w, |pre|);
  }

  /** Label-free pieces stay label-free when joined: a suffix that starts in
      the first piece already differs from the label inside both. */
  lemma LabelFreeAppend(f: Field, a: string, b: string)
    requires LabelFree(f, a) && LabelFree(f, b)
    ensures LabelFree(f, a + b)
  {
    var l := Label(f);
    forall j | 0 <= j < |a + b|
      ensures !(l <= (a + b)[j..]) && !((a + b)[j..] <= l)
    {
      if j < |a| {
        var u := a[j..];
        assert (a + b)[j..] == u + b;
        var k := Differ(l, u);
        assert (u + b)[k] == u[k];
      } else {
        assert (a + b)[j..] == b[j - |a|..];
      }
    }
  }

  /** A search in text that holds nothing label-like finds nothing. */
  lemma LabelFreeFindsNothing(f: Field, s: string)
    requires LabelFree(f, s)
    ensures FindStringSubmatch(f, s) == None
  {
    assert s[..|s|] == s;
    SkipLabelFree(f, s, |s|);
    assert MatchAt(f, s[|s|..]).None?;
  }

  /** A position where the pattern does not match can be stepped over. */
  lemma SkipNonMatch(f: Field, w: string)
    requires |w| > 0 && MatchAt(f, w).None?
    ensures FindStringSubmatch(f, w) == FindStringSubmatch(f, w[1..])
  {
    FirstPosition(f, w);
    ShiftedSearch(f, w, 1);
  }

  lemma FirstPosition(f: Field, w: string)
    requires |w| > 0 && MatchAt(f, w).None?
    ensures NoMatchBefore(f, w, 1)
  {
    assert w[0..] == w;
  }

  /** At the front of text that holds the label, whitespace and then a
      character that is not whitespace, the pattern takes the whole run of
      whitespace and then whatever the group captures. */
  lemma MatchAtLead(f: Field, ws: string, u: string)
    requires AllSpaces(ws) && |u| > 0 && !IsSpace(u[0])
    ensures MatchAt(f, Label(f) + ws + u) == Capture(f, u)
  {
    var s := Label(f) + ws + u;
    var t := s[|Label(f)|..];
    assert t == ws + u;
    assert t[..|ws|] == ws;
    assert t[|ws|] == u[0];
    SpaceRunUnique(t, |ws|);
    assert t[|ws|..] == u;
  }

  /** A report line that starts the text: the label, any whitespace (newlines
      included), then a token the group accepts. Nothing after the token is
      looked at, so `Yesterday` reads as `Yes`. */
  lemma LineAtStart(f: Field, ws: string, u: string)
    requires AllSpaces(ws) && Capture(f, u).Some?
    ensures FindStringSubmatch(f, Label(f) + ws + u) == Capture(f, u)
  {
    var tok := Capture(f, u).value;
    assert tok[0] == u[0];
    MatchAtLead(f, ws, u);
    var s := Label(f) + ws + u;
    assert s[0..] == s;
    LeftmostIs(f, s, 0);
  }

  // ---------------------------------------------------------------------
  // strconv.Atoi

  /** The largest value of Go's `int`, which is 64 bits wide here. */
  const MaxInt: int := 0x7fff_ffff_ffff_ffff

  /** `strconv.Atoi`: an optional sign and then one or more decimal digits
      (base 10 is fixed, so no underscores); a value outside the range of
      `int` is a range error. */
  function Atoi(s: string): (r: Result<int>)
    ensures r.Ok? ==> -MaxInt - 1 <= r.value <= MaxInt
    ensures r.Err? ==> r.error == NumberSyntax(s) || r.error == NumberRange(s)
  {
    var signed := |s| > 0 && (s[0] == '+' || s[0] == '-');
    var digits := if signed then s[1..] else s;
    if digits == [] || !AllDigits(digits) then Err(NumberSyntax(s))
    else
      var v: int := DecimalValue(digits);
      if signed && s[0] == '-' then
        if v > MaxInt + 1 then Err(NumberRange(s)) else Ok(-v)
      else if v > MaxInt then Err(NumberRange(s)) else Ok(v)
  }

  /** On an unsigned numeral Atoi fails only by range. */
  lemma AtoiDigits(s: string)
    requires |s| > 0 && AllDigits(s)
    ensures Atoi(s) == if DecimalValue(s) <= MaxInt then Ok(DecimalValue(s)) else Err(NumberRange(s))
  {
    assert IsDigit(s[0]);
  }

  /** Atoi reads back every printed `int`. */
  lemma AtoiRoundTrip(n: int)
    requires -MaxInt - 1 <= n <= MaxInt
    ensures n >= 0 ==> Atoi(Decimal(n)) == Ok(n)
    ensures n < 0 ==> Atoi("-" + Decimal(-n)) == Ok(n)
  {
    if n >= 0 {
      DecimalRoundTrip(n);
      AtoiDigits(Decimal(n));
    } else {
      var s := "-" + Decimal(-n);
      DecimalRoundTrip(-n);
      assert s[1..] == Decimal(-n);
    }
  }

  // ---------------------------------------------------------------------
  // The extractors

  /** getQuorate: true when the capture is `Yes`. */
  function GetQuorate(output: string): (r: Result<bool>)
    ensures r.Err? ==> r.error == InvalidOutput(Quorate)
  {
    match FindStringSubmatch(Quorate, output)
    case None => Err(InvalidOutput(Quorate))
    case Some(tok) => Ok(tok == "Yes")
  }

  /** getVotes: the captured digit run, through Atoi. */
  function GetVotes(output: string): (r: Result<int>)
    ensures r.Ok? ==> 0 <= r.value <= MaxInt
    ensures r.Err? ==> r.error == InvalidOutput(TotalVotes) || r.error.NumberRange?
  {
    match FindStringSubmatch(TotalVotes, output)
    case None => Err(InvalidOutput(TotalVotes))
    case Some(tok) => AtoiDigits(tok); Atoi(tok)
  }

  /** getVotesExpected: the one captured digit, through Atoi. */
  function GetVotesExpected(output: string): (r: Result<int>)
    ensures r.Ok? ==> 0 <= r.value <= 9
    ensures r.Err? ==> r.error == InvalidOutput(ExpectedVotes)
  {
    match FindStringSubmatch(ExpectedVotes, output)
    case None => Err(InvalidOutput(ExpectedVotes))
    case Some(tok) => AtoiDigits(tok); Atoi(tok)
  }

  /** The quorate flag is read from the leftmost match: `Yes` gives true,
      `No` gives false, and no match anywhere is the invalid-output error. */
  lemma GetQuorateSpec(output: string)
    ensures GetQuorate(output) == Ok(true) <==> exists k: nat :: FirstMatch(Quorate, output, k, "Yes")
    ensures GetQuorate(output) == Ok(false) <==> exists k: nat :: FirstMatch(Quorate, output, k, "No")
    ensures GetQuorate(output).Err? <==> NoMatch(Quorate, output)
  {
    FindStringSubmatchSome(Quorate, output, "Yes");
    FindStringSubmatchSome(Quorate, output, "No");
    FindStringSubmatchNone(Quorate, output);
  }

  /** What the search found is the capture of the one leftmost match. */
  lemma Found(f: Field, s: string, tok: string)
    requires FindStringSubmatch(f, s) == Some(tok)
    ensures exists k: nat :: FirstMatch(f, s, k, tok)
    ensures forall k': nat, tok' :: FirstMatch(f, s, k', tok') ==> tok' == tok
  {
    FindStringSubmatchSome(f, s, tok);
    var k: nat :| FirstMatch(f, s, k, tok);
    forall k': nat, tok' | FirstMatch(f, s, k', tok') ensures tok' == tok {
      FirstMatchUnique(f, s, k, tok, k', tok');
    }
  }

  /** When the search finds nothing there is no match, leftmost or other. */
  lemma NotFound(f: Field, s: string)
    requires FindStringSubmatch(f, s) == None
    ensures NoMatch(f, s)
    ensures forall k: nat, tok :: !FirstMatch(f, s, k, tok)
  {
    FindStringSubmatchNone(f, s);
    forall k: nat, tok | FirstMatch(f, s, k, tok) ensures false {
      FindStringSubmatchSome(f, s, tok);
    }
  }

  /** Total votes is the decimal value of the digits the leftmost match
      captures; no match is the invalid-output error, and a value that does
      not fit an `int` is Atoi's range error. */
  lemma GetVotesSpec(output: string, n: int)
    ensures GetVotes(output) == Ok(n) <==>
      exists k: nat, tok :: FirstMatch(TotalVotes, output, k, tok) && AllDigits(tok) && DecimalValue(tok) == n <= MaxInt
    ensures GetVotes(output) == Err(InvalidOutput(TotalVotes)) <==> NoMatch(TotalVotes, output)
    ensures (GetVotes(output).Err? && GetVotes(output).error.NumberRange?) <==>
      exists k: nat, tok :: FirstMatch(TotalVotes, output, k, tok) && AllDigits(tok) && DecimalValue(tok) > MaxInt
  {
    FindStringSubmatchNone(TotalVotes, output);
    match FindStringSubmatch(TotalVotes, output)
    case None =>
      NotFound(TotalVotes, output);
    case Some(tok) =>
      Found(TotalVotes, output, tok);
      AtoiDigits(tok);
  }

  /** Atoi reads a single digit as its value. */
  lemma AtoiDigit(tok: string)
    requires |tok| == 1 && IsDigit(tok[0])
    ensures Atoi(tok) == Ok(DigitValue(tok[0]))
  {
    AtoiDigits(tok);
    assert tok[..0] == [];
  }

  /** Expected votes is the value of the single digit the leftmost match
      captures; no match is the invalid-output error, and nothing else can
      fail. A longer number yields its first digit only. */
  lemma GetVotesExpectedSpec(output: string, n: int)
    ensures GetVotesExpected(output) == Ok(n) <==>
      exists k: nat, tok :: FirstMatch(ExpectedVotes, output, k, tok) && |tok| == 1 && IsDigit(tok[0]) && DigitValue(tok[0]) == n
    ensures GetVotesExpected(output).Err? <==> NoMatch(ExpectedVotes, output)
  {
    FindStringSubmatchNone(ExpectedVotes, output);
    match FindStringSubmatch(ExpectedVotes, output)
    case None =>
      NotFound(ExpectedVotes, output);
    case Some(tok) =>
      Found(ExpectedVotes, output, tok);
      AtoiDigit(tok);
  }

  // ---------------------------------------------------------------------
  // GetQuorumStatus

  /** A member of the cluster as the membership table would list it; the
      table is not read, so no value of this type is ever produced. */
  datatype QuorumNode = QuorumNode(id: int, ip: string, votes: int)

  datatype QuorumStatus = QuorumStatus(nodes: seq<QuorumNode>, votes: int, votesExpected: int, quorate: bool)

  /** The exit code the quorum tool returns on a healthy cluster too. */
  const BenignExitCode: int := 1

  /** The run is good enough to read its output: it succeeded, or it exited
      with the benign code. */
  predicate ProceedsToParse(status: RunStatus) {
    status.Success? || (status.ExitError? && status.code == BenignExitCode)
  }

  /** The status read from the report, one field after the other; the first
      failure is returned and no partial status. */
  function ParseQuorumStatus(output: string): (r: Result<QuorumStatus>)
    ensures r.Ok? ==> r.value.nodes == []
  {
    match GetQuorate(output)
    case Err(e) => Err(e)
    case Ok(quorate) =>
      match GetVotes(output)
      case Err(e) => Err(e)
      case Ok(votes) =>
        match GetVotesExpected(output)
        case Err(e) => Err(e)
        case Ok(expected) => Ok(QuorumStatus([], votes, expected, quorate))
  }

  /** GetQuorumStatus once the command has run. */
  function GetQuorumStatus(run: CommandRun): (r: Result<QuorumStatus>)
    ensures r.Err? && r.error.CommandFailed? ==> r.error.status == run.status
  {
    if ProceedsToParse(run.status) then ParseQuorumStatus(run.output)
    else Err(CommandFailed(run.status))
  }

  /** A status is returned exactly when the run may be parsed and all three
      fields are read; it holds those three values and no nodes. */
  lemma GetQuorumStatusOk(run: CommandRun, st: QuorumStatus)
    ensures GetQuorumStatus(run) == Ok(st) <==>
      && ProceedsToParse(run.status)
      && GetQuorate(run.output) == Ok(st.quorate)
      && GetVotes(run.output) == Ok(st.votes)
      && GetVotesExpected(run.output) == Ok(st.votesExpected)
      && st.nodes == []
  {
  }

  /** The failure returned is that of the first step that fails, in the order
      run, quorate, total votes, expected votes. */
  lemma GetQuorumStatusFailFast(run: CommandRun)
    ensures !ProceedsToParse(run.status) ==> GetQuorumStatus(run) == Err(CommandFailed(run.status))
    ensures ProceedsToParse(run.status) && GetQuorate(run.output).Err? ==>
      GetQuorumStatus(run) == Err(InvalidOutput(Quorate))
    ensures ProceedsToParse(run.status) && GetQuorate(run.output).Ok? && GetVotes(run.output).Err? ==>
      GetQuorumStatus(run) == Err(GetVotes(run.output).error)
    ensures ProceedsToParse(run.status) && GetQuorate(run.output).Ok? && GetVotes(run.output).Ok? &&
            GetVotesExpected(run.output).Err? ==>
              GetQuorumStatus(run) == Err(InvalidOutput(ExpectedVotes))
  {
  }

  /** Exit code 1 is treated exactly like success. */
  lemma BenignExitCodeMasked(output: string)
    ensures GetQuorumStatus(CommandRun(ExitError(1), output)) == GetQuorumStatus(CommandRun(Success, output))
  {
  }

  /** Any other exit code, and any error that is not an exit, fails before the
      output is looked at. */
  lemma OtherFailuresIgnoreOutput(status: RunStatus, output1: string, output2: string)
    requires status.LaunchError? || (status.ExitError? && status.code != 1)
    ensures GetQuorumStatus(CommandRun(status, output1)) == Err(CommandFailed(status))
    ensures GetQuorumStatus(CommandRun(status, output1)) == GetQuorumStatus(CommandRun(status, output2))
  {
  }
}
