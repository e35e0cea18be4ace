/** The reports of corosync_test.go run through the extractors. Each report
    is the test's format text with the token put in place of `%s`, written
    as a right-nested concatenation of its pieces so that the search can be
    followed piece by piece. */
module QuorumExamples {
  import opened Text
  import opened Quorum

  // ---------------------------------------------------------------------
  // Passing over text

  /** `s` holds no character that starts the label of `f`. */
  predicate FreeText(f: Field, s: string) {
    forall i :: 0 <= i < |s| ==> s[i] != Label(f)[0]
  }

  lemma FreeTextLabelFree(f: Field, s: string)
    requires FreeText(f, s)
    ensures LabelFree(f, s)
  {
    forall j | 0 <= j < |s| ensures !(Label(f) <= s[j..]) && !(s[j..] <= Label(f)) {
      assert s[j..][0] == s[j];
    }
  }

  lemma FreeTextAppend(f: Field, a: string, b: string)
    requires FreeText(f, a) && FreeText(f, b)
    ensures FreeText(f, a + b)
  {
    forall i | 0 <= i < |a + b| ensures (a + b)[i] != Label(f)[0] {
      if i >= |a| {
        assert (a + b)[i] == b[i - |a|];
      }
    }
  }

  /** The search passes over text that cannot start the label. */
  lemma SkipFree(f: Field, pre: string, s: string)
    requires FreeText(f, pre)
    ensures FindStringSubmatch(f, pre + s) == FindStringSubmatch(f, s)
  {
    FreeTextLabelFree(f, pre);
    PrependLabelFree(f, pre, s);
  }

  /** The search passes over a line that starts like the label but differs
      from it at `k`, and cannot start it after its first character. The
      line is given as a short `head`, which holds position `k`, and the
      `rest` of it. */
  lemma SkipNear(f: Field, head: string, rest: string, s: string, k: nat)
    requires k < |Label(f)| && k < |head| && head[k] != Label(f)[k]
    requires FreeText(f, head[1..]) && FreeText(f, rest)
    ensures FindStringSubmatch(f, head + (rest + s)) == FindStringSubmatch(f, s)
  {
    var w := head + (rest + s);
    assert w[1..] == head[1..] + (rest + s);
    SkipFree(f, rest, s);
    SkipFree(f, head[1..], rest + s);
    NearNoMatch(f, head, rest + s, k);
    SkipNonMatch(f, w);
  }

  lemma NearNoMatch(f: Field, line: string, s: string, k: nat)
    requires k < |Label(f)| && k < |line| && line[k] != Label(f)[k]
    ensures MatchAt(f, line + s).None?
  {
    assert (line + s)[k] == line[k];
  }

  /** `lead` is the label of `f` followed by whitespace. */
  predicate Lead(f: Field, lead: string) {
    Label(f) <= lead && AllSpaces(lead[|Label(f)|..])
  }

  /** A line that starts the text with its label and whitespace: its token is
      what the group captures after them. */
  lemma TokenLine(f: Field, lead: string, u: string)
    requires Lead(f, lead) && Capture(f, u).Some?
    ensures FindStringSubmatch(f, lead + u) == Capture(f, u)
  {
    var ws := lead[|Label(f)|..];
    assert lead == Label(f) + ws;
    LineAtStart(f, ws, u);
  }

  /** A line that starts the text with its label and whitespace, but whose
      token the group does not accept, followed by text that cannot start
      the label: nothing is found. */
  lemma NoTokenLine(f: Field, lead: string, u: string)
    requires Lead(f, lead) && |u| > 0 && !IsSpace(u[0]) && Capture(f, u).None?
    requires FreeText(f, lead[1..]) && FreeText(f, u)
    ensures FindStringSubmatch(f, lead + u) == None
  {
    LeadNoMatch(f, lead, u);
    SkipNonMatch(f, lead + u);
    AfterFirstFindsNothing(f, lead, u);
  }

  /** Past the first character of the line there is nothing to find. */
  lemma AfterFirstFindsNothing(f: Field, lead: string, u: string)
    requires |lead| > 0 && FreeText(f, lead[1..]) && FreeText(f, u)
    ensures FindStringSubmatch(f, (lead + u)[1..]) == None
  {
    assert (lead + u)[1..] == lead[1..] + u;
    FreeTextAppend(f, lead[1..], u);
    FreeFindsNothing(f, lead[1..] + u);
  }

  /** The pattern does not match at a label whose token it does not accept. */
  lemma LeadNoMatch(f: Field, lead: string, u: string)
    requires Lead(f, lead) && |u| > 0 && !IsSpace(u[0]) && Capture(f, u).None?
    ensures MatchAt(f, lead + u).None?
  {
    var ws := lead[|Label(f)|..];
    assert lead == Label(f) + ws;
    MatchAtLead(f, ws, u);
  }

  /** A search in text without the first letter of the label finds nothing. */
  lemma FreeFindsNothing(f: Field, s: string)
    requires FreeText(f, s)
    ensures FindStringSubmatch(f, s) == None
  {
    FreeTextLabelFree(f, s);
    LabelFreeFindsNothing(f, s);
  }

  // ---------------------------------------------------------------------
  // Captures and numerals

  lemma YesCapture(rest: string)
    ensures Capture(Quorate, "Yes" + rest) == Some("Yes")
  {
    assert ("Yes" + rest)[..3] == "Yes";
  }

  lemma NoCapture(rest: string)
    ensures Capture(Quorate, "No" + rest) == Some("No")
  {
    var u := "No" + rest;
    assert u[..2] == "No" && u[0] == 'N';
  }

  /** `\d+` takes the whole numeral when a non-digit follows it. */
  lemma DigitsCapture(tok: string, rest: string)
    requires |tok| > 0 && AllDigits(tok) && |rest| > 0 && !IsDigit(rest[0])
    ensures Capture(TotalVotes, tok + rest) == Some(tok)
  {
    var u := tok + rest;
    assert u[..|tok|] == tok && u[|tok|] == rest[0];
    DigitRunUnique(u, |tok|);
  }

  /** `\d` takes the first digit only. */
  lemma DigitCapture(tok: string, rest: string)
    requires |tok| > 0 && IsDigit(tok[0])
    ensures Capture(ExpectedVotes, tok + rest) == Some(tok[..1])
  {
    var u := tok + rest;
    assert u[0] == tok[0] && u[..1] == tok[..1];
  }

  lemma Numerals()
    ensures DecimalValue("1") == 1 && DecimalValue("3") == 3
    ensures DecimalValue("134") == 134 && DecimalValue("12345") == 12345
  {
    assert "134"[..2] == "13" && "13"[..1] == "1" && "1"[..0] == "";
    assert "3"[..0] == "";
    assert "12345"[..4] == "1234" && "1234"[..3] == "123" && "123"[..2] == "12" && "12"[..1] == "1";
  }

  // ---------------------------------------------------------------------
  // TestGetQuorate

  const QuorateTail: string := "\n" + ("\n" + ("Votequorum information\n" + "----------------------\n"))

  function QuorateReport(token: string): string {
    "\n" + ("Quorum" + (" information\n" + ("------------------\n" +
    ("Date:             Tue Oct 29 14:11:19 2019\n" + ("Quorum" + (" provider:  corosync_votequorum\n" +
    ("Nodes:            3\n" + ("Node ID:          2\n" + ("Ring ID:          1/12\n" +
    ("Quorate:          " + (token + QuorateTail)))))))))))
  }

  lemma QuorateHeadFacts()
    ensures FreeText(Quorate, "\n") && FreeText(Quorate, "------------------\n")
    ensures FreeText(Quorate, "Date:             Tue Oct 29 14:11:19 2019\n")
    ensures FreeText(Quorate, "Nodes:            3\n") && FreeText(Quorate, "Node ID:          2\n")
    ensures FreeText(Quorate, "Ring ID:          1/12\n")
  {
  }

  /** The two lines that start with `Quorum` part from the label `Quorate:`
      at their fifth character. */
  lemma QuorumHeadFacts()
    ensures "Quorum"[4] != Label(Quorate)[4] && FreeText(Quorate, "Quorum"[1..])
  {
  }

  lemma QuorumLinesFacts()
    ensures FreeText(Quorate, " information\n")
    ensures FreeText(Quorate, " provider:  corosync_votequorum\n")
  {
  }

  /** The search for `Quorate:` passes over everything before the quorate
      line. */
  lemma QuorateReportSearch(token: string)
    ensures FindStringSubmatch(Quorate, QuorateReport(token)) ==
            FindStringSubmatch(Quorate, "Quorate:          " + (token + QuorateTail))
  {
    var s8 := "Quorate:          " + (token + QuorateTail);
    var s7 := "Ring ID:          1/12\n" + s8;
    var s6 := "Node ID:          2\n" + s7;
    var s5 := "Nodes:            3\n" + s6;
    var s4 := "Quorum" + (" provider:  corosync_votequorum\n" + s5);
    var s3 := "Date:             Tue Oct 29 14:11:19 2019\n" + s4;
    var s2 := "------------------\n" + s3;
    var s1 := "Quorum" + (" information\n" + s2);
    QuorateHeadFacts();
    QuorumHeadFacts();
    QuorumLinesFacts();
    SkipFree(Quorate, "\n", s1);
    SkipNear(Quorate, "Quorum", " information\n", s2, 4);
    SkipFree(Quorate, "------------------\n", s3);
    SkipFree(Quorate, "Date:             Tue Oct 29 14:11:19 2019\n", s4);
    SkipNear(Quorate, "Quorum", " provider:  corosync_votequorum\n", s5, 4);
    SkipFree(Quorate, "Nodes:            3\n", s6);
    SkipFree(Quorate, "Node ID:          2\n", s7);
    SkipFree(Quorate, "Ring ID:          1/12\n", s8);
  }

  lemma QuorateLeadFact()
    ensures Lead(Quorate, "Quorate:          ")
  {
  }

  /** What follows the label when the token is not `Yes` or `No`. */
  lemma InvalidQuorateFacts()
    ensures FreeText(Quorate, "Quorate:          "[1..]) && FreeText(Quorate, "Something invalid" + QuorateTail)
    ensures Capture(Quorate, "Something invalid" + QuorateTail).None?
    ensures !IsSpace(("Something invalid" + QuorateTail)[0])
  {
    var u := "Something invalid" + QuorateTail;
    assert u[0] == 'S';
    assert FreeText(Quorate, "Votequorum information\n");
    assert FreeText(Quorate, "----------------------\n");
    FreeTextAppend(Quorate, "Votequorum information\n", "----------------------\n");
    FreeTextAppend(Quorate, "\n", "Votequorum information\n" + "----------------------\n");
    FreeTextAppend(Quorate, "\n", "\n" + ("Votequorum information\n" + "----------------------\n"));
    assert FreeText(Quorate, "Something invalid");
    FreeTextAppend(Quorate, "Something invalid", QuorateTail);
  }

  /** corosync_test.go, TestGetQuorate: `Yes` is quorate, `No` is not, and
      any other token is an error. */
  lemma TestGetQuorate()
    ensures GetQuorate(QuorateReport("Yes")) == Ok(true)
    ensures GetQuorate(QuorateReport("No")) == Ok(false)
    ensures GetQuorate(QuorateReport("Something invalid")) == Err(InvalidOutput(Quorate))
  {
    var lead := "Quorate:          ";
    QuorateLeadFact();
    QuorateReportSearch("Yes");
    YesCapture(QuorateTail);
    TokenLine(Quorate, lead, "Yes" + QuorateTail);
    QuorateReportSearch("No");
    NoCapture(QuorateTail);
    TokenLine(Quorate, lead, "No" + QuorateTail);
    QuorateReportSearch("Something invalid");
    InvalidQuorateFacts();
    NoTokenLine(Quorate, lead, "Something invalid" + QuorateTail);
  }

  // ---------------------------------------------------------------------
  // TestGetVotes and TestGetVotesExpected

  /** The lines between the quorate line and the expected-votes line. */
  const Middle: string := "\n" + ("\n" + ("Votequorum information\n" + "----------------------\n"))
  const HighestExpected: string := "\nHighest expected: 12345\n"
  /** The lines after the total-votes line. */
  const Tail: string := "\n" + ("Quorum:           12345\n" + ("Flags:            Quorate\n" +
    ("\n" + ("Membership information\n" + "----------------------\n"))))

  /** The report of TestGetVotes, with `token` as the total votes. */
  function VotesReport(token: string): string {
    "\n" + ("Quorate:          " + ("Yes" + (Middle + ("Expected votes:   " + ("12345" +
    (HighestExpected + ("Total votes:      " + (token + Tail))))))))
  }

  /** The report of TestGetVotesExpected, with `token` as the expected votes. */
  function ExpectedReport(token: string): string {
    "\n" + ("Quorate:          " + ("Yes" + (Middle + ("Expected votes:   " + (token +
    (HighestExpected + ("Total votes:      " + ("12345" + Tail))))))))
  }

  /** Nothing before the total-votes line contains a `T`. */
  lemma TotalVotesHeadFacts()
    ensures FreeText(TotalVotes, "\n") && FreeText(TotalVotes, "Quorate:          ")
    ensures FreeText(TotalVotes, "Yes") && FreeText(TotalVotes, Middle)
    ensures FreeText(TotalVotes, "Expected votes:   ") && FreeText(TotalVotes, HighestExpected)
    ensures FreeText(TotalVotes, "12345")
    ensures Lead(TotalVotes, "Total votes:      ")
  {
    assert FreeText(TotalVotes, "Votequorum information\n");
    assert FreeText(TotalVotes, "----------------------\n");
    FreeTextAppend(TotalVotes, "Votequorum information\n", "----------------------\n");
    FreeTextAppend(TotalVotes, "\n", "Votequorum information\n" + "----------------------\n");
    FreeTextAppend(TotalVotes, "\n", "\n" + ("Votequorum information\n" + "----------------------\n"));
  }

  /** Nothing before the expected-votes line contains an `E`. */
  lemma ExpectedVotesHeadFacts()
    ensures FreeText(ExpectedVotes, "\n") && FreeText(ExpectedVotes, "Quorate:          ")
    ensures FreeText(ExpectedVotes, "Yes") && FreeText(ExpectedVotes, Middle)
    ensures Lead(ExpectedVotes, "Expected votes:   ")
  {
    assert FreeText(ExpectedVotes, "Votequorum information\n");
    assert FreeText(ExpectedVotes, "----------------------\n");
    FreeTextAppend(ExpectedVotes, "Votequorum information\n", "----------------------\n");
    FreeTextAppend(ExpectedVotes, "\n", "Votequorum information\n" + "----------------------\n");
    FreeTextAppend(ExpectedVotes, "\n", "\n" + ("Votequorum information\n" + "----------------------\n"));
  }

  /** Both reports start with the quorate line, which reads `Yes`. */
  lemma QuorateFirst(rest: string)
    ensures FindStringSubmatch(Quorate, "\n" + ("Quorate:          " + ("Yes" + rest))) == Some("Yes")
  {
    QuorateHeadFacts();
    QuorateLeadFact();
    SkipFree(Quorate, "\n", "Quorate:          " + ("Yes" + rest));
    YesCapture(rest);
    TokenLine(Quorate, "Quorate:          ", "Yes" + rest);
  }

  /** The search for `Total votes:` passes over everything before its line. */
  lemma TotalVotesSearch(expected: string, rest: string)
    requires FreeText(TotalVotes, expected)
    ensures FindStringSubmatch(TotalVotes,
              "\n" + ("Quorate:          " + ("Yes" + (Middle + ("Expected votes:   " + (expected +
              (HighestExpected + ("Total votes:      " + rest)))))))) ==
            FindStringSubmatch(TotalVotes, "Total votes:      " + rest)
  {
    var s7 := "Total votes:      " + rest;
    var s6 := HighestExpected + s7;
    var s5 := expected + s6;
    var s4 := "Expected votes:   " + s5;
    var s3 := Middle + s4;
    var s2 := "Yes" + s3;
    var s1 := "Quorate:          " + s2;
    TotalVotesHeadFacts();
    SkipFree(TotalVotes, "\n", s1);
    SkipFree(TotalVotes, "Quorate:          ", s2);
    SkipFree(TotalVotes, "Yes", s3);
    SkipFree(TotalVotes, Middle, s4);
    SkipFree(TotalVotes, "Expected votes:   ", s5);
    SkipFree(TotalVotes, expected, s6);
    SkipFree(TotalVotes, HighestExpected, s7);
  }

  /** The search for `Expected votes:` passes over everything before its
      line. */
  lemma ExpectedVotesSearch(rest: string)
    ensures FindStringSubmatch(ExpectedVotes,
              "\n" + ("Quorate:          " + ("Yes" + (Middle + ("Expected votes:   " + rest))))) ==
            FindStringSubmatch(ExpectedVotes, "Expected votes:   " + rest)
  {
    var s4 := "Expected votes:   " + rest;
    var s3 := Middle + s4;
    var s2 := "Yes" + s3;
    var s1 := "Quorate:          " + s2;
    ExpectedVotesHeadFacts();
    SkipFree(ExpectedVotes, "\n", s1);
    SkipFree(ExpectedVotes, "Quorate:          ", s2);
    SkipFree(ExpectedVotes, "Yes", s3);
    SkipFree(ExpectedVotes, Middle, s4);
  }

  lemma TailFacts()
    ensures |Tail| > 0 && !IsDigit(Tail[0])
    ensures |HighestExpected| > 0 && !IsDigit(HighestExpected[0])
  {
  }

  /** A numeral on the total-votes line is captured whole. */
  lemma TotalVotesToken(expected: string, token: string)
    requires FreeText(TotalVotes, expected) && |token| > 0 && AllDigits(token)
    ensures FindStringSubmatch(TotalVotes,
              "\n" + ("Quorate:          " + ("Yes" + (Middle + ("Expected votes:   " + (expected +
              (HighestExpected + ("Total votes:      " + (token + Tail))))))))) == Some(token)
  {
    TotalVotesSearch(expected, token + Tail);
    TailFacts();
    DigitsCapture(token, Tail);
    TotalVotesHeadFacts();
    TokenLine(TotalVotes, "Total votes:      ", token + Tail);
  }

  /** Of a numeral on the expected-votes line, the first digit is captured. */
  lemma ExpectedVotesToken(token: string, rest: string)
    requires |token| > 0 && IsDigit(token[0])
    ensures FindStringSubmatch(ExpectedVotes,
              "\n" + ("Quorate:          " + ("Yes" + (Middle + ("Expected votes:   " + (token + rest)))))) ==
            Some(token[..1])
  {
    ExpectedVotesSearch(token + rest);
    DigitCapture(token, rest);
    ExpectedVotesHeadFacts();
    TokenLine(ExpectedVotes, "Expected votes:   ", token + rest);
  }

  /** The lines after the total-votes line hold no `T` and no `E`. */
  lemma TailFree(f: Field)
    requires f == TotalVotes || f == ExpectedVotes
    ensures FreeText(f, Tail)
  {
    TailLinesFree(f);
    FreeTextAppend(f, "Membership information\n", "----------------------\n");
    FreeTextAppend(f, "\n", "Membership information\n" + "----------------------\n");
    var t3 := "\n" + ("Membership information\n" + "----------------------\n");
    FreeTextAppend(f, "Flags:            Quorate\n", t3);
    var t2 := "Flags:            Quorate\n" + t3;
    FreeTextAppend(f, "Quorum:           12345\n", t2);
    FreeTextAppend(f, "\n", "Quorum:           12345\n" + t2);
  }

  lemma TailLinesFree(f: Field)
    requires f == TotalVotes || f == ExpectedVotes
    ensures FreeText(f, "\n") && FreeText(f, "Quorum:           12345\n")
    ensures FreeText(f, "Flags:            Quorate\n")
    ensures FreeText(f, "Membership information\n") && FreeText(f, "----------------------\n")
  {
  }

  /** What follows the total-votes label when the token is `invalid`. */
  lemma InvalidVotesFacts()
    ensures FreeText(TotalVotes, "Total votes:      "[1..]) && FreeText(TotalVotes, "invalid" + Tail)
    ensures Capture(TotalVotes, "invalid" + Tail).None?
    ensures !IsSpace(("invalid" + Tail)[0])
  {
    var u := "invalid" + Tail;
    assert u[0] == 'i';
    TailFree(TotalVotes);
    assert FreeText(TotalVotes, "invalid");
    FreeTextAppend(TotalVotes, "invalid", Tail);
  }

  /** Any numeral in range on the total-votes line of the report of
      TestGetVotes is read as its value. */
  lemma VotesNumeral(token: string)
    requires |token| > 0 && AllDigits(token) && DecimalValue(token) <= MaxInt
    ensures GetVotes(VotesReport(token)) == Ok(DecimalValue(token))
  {
    TotalVotesHeadFacts();
    TotalVotesToken("12345", token);
    AtoiDigits(token);
  }

  lemma VotesInvalid()
    ensures GetVotes(VotesReport("invalid")) == Err(InvalidOutput(TotalVotes))
  {
    TotalVotesHeadFacts();
    TotalVotesSearch("12345", "invalid" + Tail);
    InvalidVotesFacts();
    NoTokenLine(TotalVotes, "Total votes:      ", "invalid" + Tail);
  }

  /** corosync_test.go, TestGetVotes: the numeral after `Total votes:` is read
      whole, and a word that is not a numeral is an error. */
  lemma TestGetVotes()
    ensures GetVotes(VotesReport("3")) == Ok(3)
    ensures GetVotes(VotesReport("134")) == Ok(134)
    ensures GetVotes(VotesReport("invalid")) == Err(InvalidOutput(TotalVotes))
  {
    Numerals();
    assert AllDigits("3") && AllDigits("134");
    VotesNumeral("3");
    VotesNumeral("134");
    VotesInvalid();
  }

  /** The text after the expected-votes numeral holds no `E`. */
  lemma ExpectedRestFacts()
    ensures FreeText(ExpectedVotes, HighestExpected + ("Total votes:      " + ("12345" + Tail)))
  {
    TailFree(ExpectedVotes);
    assert FreeText(ExpectedVotes, "12345");
    FreeTextAppend(ExpectedVotes, "12345", Tail);
    assert FreeText(ExpectedVotes, "Total votes:      ");
    FreeTextAppend(ExpectedVotes, "Total votes:      ", "12345" + Tail);
    assert FreeText(ExpectedVotes, HighestExpected);
    FreeTextAppend(ExpectedVotes, HighestExpected, "Total votes:      " + ("12345" + Tail));
  }

  /** What follows the expected-votes label when the token is `invalid`. */
  lemma InvalidExpectedFacts()
    ensures FreeText(ExpectedVotes, "Expected votes:   "[1..])
    ensures FreeText(ExpectedVotes, "invalid" + (HighestExpected + ("Total votes:      " + ("12345" + Tail))))
    ensures Capture(ExpectedVotes, "invalid" + (HighestExpected + ("Total votes:      " + ("12345" + Tail)))).None?
    ensures !IsSpace(("invalid" + (HighestExpected + ("Total votes:      " + ("12345" + Tail))))[0])
  {
    var rest := HighestExpected + ("Total votes:      " + ("12345" + Tail));
    var u := "invalid" + rest;
    assert u[0] == 'i';
    ExpectedRestFacts();
    assert FreeText(ExpectedVotes, "invalid");
    FreeTextAppend(ExpectedVotes, "invalid", rest);
  }

  /** Whatever numeral is on the expected-votes line of the report of
      TestGetVotesExpected, its first digit is what is read. */
  lemma ExpectedNumeral(token: string)
    requires |token| > 0 && IsDigit(token[0])
    ensures GetVotesExpected(ExpectedReport(token)) == Ok(DigitValue(token[0]))
  {
    var rest := HighestExpected + ("Total votes:      " + ("12345" + Tail));
    OneDigit(token);
    ExpectedVotesToken(token, rest);
  }

  /** A captured single digit reads as its value. */
  lemma OneDigit(token: string)
    requires |token| > 0 && IsDigit(token[0])
    ensures Atoi(token[..1]) == Ok(DigitValue(token[0]))
  {
    var d := token[..1];
    assert d[0] == token[0];
    AtoiDigit(d);
  }

  lemma ExpectedInvalid()
    ensures GetVotesExpected(ExpectedReport("invalid")) == Err(InvalidOutput(ExpectedVotes))
  {
    var rest := HighestExpected + ("Total votes:      " + ("12345" + Tail));
    ExpectedVotesSearch("invalid" + rest);
    ExpectedVotesHeadFacts();
    InvalidExpectedFacts();
    NoTokenLine(ExpectedVotes, "Expected votes:   ", "invalid" + rest);
  }

  /** corosync_test.go, TestGetVotesExpected. The pattern `\d` captures one
      digit, so `134` reads as 1, where the test expects 134; `3` reads as 3
      and a word that is not a numeral is an error. */
  lemma TestGetVotesExpected()
    ensures GetVotesExpected(ExpectedReport("3")) == Ok(3)
    ensures GetVotesExpected(ExpectedReport("134")) == Ok(1)
    ensures GetVotesExpected(ExpectedReport("134")) != Ok(134)
    ensures GetVotesExpected(ExpectedReport("invalid")) == Err(InvalidOutput(ExpectedVotes))
  {
    ExpectedNumeral("3");
    ExpectedNumeral("134");
    ExpectedInvalid();
  }

  /** The whole report of TestGetVotesExpected, from a run that exits with
      code 1: quorate, 12345 votes in total, and the expected votes read as
      the first digit of the numeral. */
  lemma ExpectedReportStatus(token: string)
    requires |token| > 0 && IsDigit(token[0]) && FreeText(TotalVotes, token)
    ensures GetQuorumStatus(CommandRun(ExitError(1), ExpectedReport(token))) ==
            Ok(QuorumStatus([], 12345, DigitValue(token[0]), true))
  {
    Numerals();
    assert AllDigits("12345");
    AtoiDigits("12345");
    var rest := HighestExpected + ("Total votes:      " + ("12345" + Tail));
    QuorateFirst(Middle + ("Expected votes:   " + (token + rest)));
    TotalVotesToken(token, "12345");
    ExpectedNumeral(token);
  }
}
