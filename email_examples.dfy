/** The addresses the service's integration test feeds to the service:
    every address it expects to be saved passes ValidateEmailAddress, and
    every address it expects to be refused fails it.

    The verifier computes Run on a literal string by unfolding it, at a cost
    that grows quickly with the length of the literal. So every address is
    cut into pieces of a few characters: one lemma per piece computes the
    phase that piece leads to, and Then or Stuck join the pieces. The pieces
    reach a lemma as parameters, so that each literal is unfolded only in
    the lemma about it. */
module EmailExamples {
  import opened EmailPattern

  /** The addresses the test expects to be saved. */
  const AcceptList: seq<string> := [
    "test@yahoo.com",
    "test-100@yahoo.com",
    "test.100@yahoo.com",
    "test111@test.com",
    "test-100@test.net",
    "test.100@test.com.au",
    "test@1.com",
    "test@gmail.com.com",
    "test+100@gmail.com",
    "test-100@yahoo-test.com"
  ]

  /** The addresses the test expects to be refused. */
  const RejectList: seq<string> := [
    "test",
    "test@.com.my",
    "test123@gmail.a",
    "test123@.com",
    "test123@.com.com",
    ".test@test.com",
    "test()*@gmail.com",
    "test@%*.com",
    "test..2002@gmail.com",
    "test.@gmail.com",
    "test@test@gmail.com",
    "test@gmail.com.1a"
  ]

  /** Every address the test expects to be saved is valid. */
  lemma AcceptListAccepted()
    ensures forall s :: s in AcceptList ==> ValidateEmailAddress(s)
  {
    forall s | s in AcceptList
      ensures ValidateEmailAddress(s)
    {
      if s == "test@yahoo.com" {
        Accepts0(s, "test@", "yahoo.com");
      } else if s == "test-100@yahoo.com" {
        Accepts1(s, "test-100@", "yahoo.com");
      } else if s == "test.100@yahoo.com" {
        Accepts2(s, "test.100@", "yahoo.com");
      } else if s == "test111@test.com" {
        Accepts3(s, "test111@", "test.com");
      } else if s == "test-100@test.net" {
        Accepts4(s, "test-100@", "test.net");
      } else if s == "test.100@test.com.au" {
        Accepts5(s, "test.100@", "test.com.", "au");
      } else if s == "test@1.com" {
        Accepts6(s, "test@", "1.com");
      } else if s == "test@gmail.com.com" {
        Accepts7(s, "test@", "gmail.com.", "com");
      } else if s == "test+100@gmail.com" {
        Accepts8(s, "test+100@", "gmail.com");
      } else {
        Accepts9(s, "test-100@", "yahoo-", "test.com");
      }
    }
  }

  /** Every address the test expects to be refused is invalid. */
  lemma RejectListRejected()
    ensures forall s :: s in RejectList ==> !ValidateEmailAddress(s)
  {
    forall s | s in RejectList
      ensures !ValidateEmailAddress(s)
    {
      if s == "test" {
        Rejects0(s);
      } else if s == "test@.com.my" {
        Rejects1(s, "test@.", "com.my");
      } else if s == "test123@gmail.a" {
        Rejects2(s, "test123@", "gmail.a");
      } else if s == "test123@.com" {
        Rejects3(s, "test123@.", "com");
      } else if s == "test123@.com.com" {
        Rejects4(s, "test123@.", "com.com");
      } else if s == ".test@test.com" {
        Rejects5(s, ".", "test@test.com");
      } else if s == "test()*@gmail.com" {
        Rejects6(s, "test(", ")*@gmail.com");
      } else if s == "test@%*.com" {
        Rejects7(s, "test@%", "*.com");
      } else if s == "test..2002@gmail.com" {
        Rejects8(s, "test..", "2002@gmail.com");
      } else if s == "test.@gmail.com" {
        Rejects9(s, "test.@", "gmail.com");
      } else if s == "test@test@gmail.com" {
        Rejects10(s, "test@test@", "gmail.com");
      } else {
        Rejects11(s, "test@", "gmail.com.", "1a");
      }
    }
  }

  /** Reading s = a + b from q goes through the phase m1 reached after a. */
  lemma Then(q: Phase, s: string, a: string, b: string, m1: Phase, m2: Phase)
    requires s == a + b
    requires Run(q, a) == m1 && Run(m1, b) == m2
    ensures Run(q, s) == m2
  {
    RunAppend(q, a, b);
  }

  /** Once the scan of a prefix a has rejected, s = a + b is rejected. */
  lemma Stuck(s: string, a: string, b: string)
    requires s == a + b
    requires Run(LocalStart, a) == Reject
    ensures !ValidateEmailAddress(s)
  {
    RejectStays(b);
    RunAppend(LocalStart, a, b);
  }

  lemma Accepts0(s: string, local: string, domain: string)
    requires s == "test@yahoo.com" && local == "test@" && domain == "yahoo.com"
    ensures ValidateEmailAddress(s)
  {
    ReadsTestAt(local);
    ReadsYahooDotCom(domain);
    Then(LocalStart, s, local, domain, DomainStart, LabelLetters);
  }

  lemma Accepts1(s: string, local: string, domain: string)
    requires s == "test-100@yahoo.com" && local == "test-100@" && domain == "yahoo.com"
    ensures ValidateEmailAddress(s)
  {
    ReadsTestDash100At(local);
    ReadsYahooDotCom(domain);
    Then(LocalStart, s, local, domain, DomainStart, LabelLetters);
  }

  lemma Accepts2(s: string, local: string, domain: string)
    requires s == "test.100@yahoo.com" && local == "test.100@" && domain == "yahoo.com"
    ensures ValidateEmailAddress(s)
  {
    ReadsTestDot100At(local);
    ReadsYahooDotCom(domain);
    Then(LocalStart, s, local, domain, DomainStart, LabelLetters);
  }

  lemma Accepts3(s: string, local: string, domain: string)
    requires s == "test111@test.com" && local == "test111@" && domain == "test.com"
    ensures ValidateEmailAddress(s)
  {
    ReadsTest111At(local);
    ReadsTestDotCom(domain);
    Then(LocalStart, s, local, domain, DomainStart, LabelLetters);
  }

  lemma Accepts4(s: string, local: string, domain: string)
    requires s == "test-100@test.net" && local == "test-100@" && domain == "test.net"
    ensures ValidateEmailAddress(s)
  {
    ReadsTestDash100At(local);
    ReadsTestDotNet(domain);
    Then(LocalStart, s, local, domain, DomainStart, LabelLetters);
  }

  lemma Accepts5(s: string, local: string, domain: string, last: string)
    requires s == "test.100@test.com.au" && local == "test.100@" && domain == "test.com." && last == "au"
    ensures ValidateEmailAddress(s)
  {
    ReadsTestDot100At(local);
    ReadsTestDotComDot(domain);
    ReadsAuFromDomainDot(last);
    Then(DomainStart, domain + last, domain, last, DomainDot, LabelLetters);
    Then(LocalStart, s, local, domain + last, DomainStart, LabelLetters);
  }

  lemma Accepts6(s: string, local: string, domain: string)
    requires s == "test@1.com" && local == "test@" && domain == "1.com"
    ensures ValidateEmailAddress(s)
  {
    ReadsTestAt(local);
    Reads1DotCom(domain);
    Then(LocalStart, s, local, domain, DomainStart, LabelLetters);
  }

  lemma Accepts7(s: string, local: string, domain: string, last: string)
    requires s == "test@gmail.com.com" && local == "test@" && domain == "gmail.com." && last == "com"
    ensures ValidateEmailAddress(s)
  {
    ReadsTestAt(local);
    ReadsGmailDotComDot(domain);
    ReadsComFromDomainDot(last);
    Then(DomainStart, domain + last, domain, last, DomainDot, LabelLetters);
    Then(LocalStart, s, local, domain + last, DomainStart, LabelLetters);
  }

  lemma Accepts8(s: string, local: string, domain: string)
    requires s == "test+100@gmail.com" && local == "test+100@" && domain == "gmail.com"
    ensures ValidateEmailAddress(s)
  {
    ReadsTestPlus100At(local);
    ReadsGmailDotCom(domain);
    Then(LocalStart, s, local, domain, DomainStart, LabelLetters);
  }

  lemma Accepts9(s: string, local: string, domain: string, last: string)
    requires s == "test-100@yahoo-test.com" && local == "test-100@" && domain == "yahoo-" && last == "test.com"
    ensures ValidateEmailAddress(s)
  {
    ReadsTestDash100At(local);
    ReadsYahooDash(domain);
    ReadsTestDotComFromDomainFirst(last);
    Then(DomainStart, domain + last, domain, last, DomainFirst, LabelLetters);
    Then(LocalStart, s, local, domain + last, DomainStart, LabelLetters);
  }

  lemma Rejects0(s: string)
    requires s == "test"
    ensures !ValidateEmailAddress(s)
  {
    assert Run(LocalStart, "test") == LocalFirst;
  }

  lemma Rejects1(s: string, prefix: string, rest: string)
    requires s == "test@.com.my" && prefix == "test@." && rest == "com.my"
    ensures !ValidateEmailAddress(s)
  {
    ReadsTestAtDot(prefix);
    Stuck(s, prefix, rest);
  }

  lemma Rejects2(s: string, local: string, domain: string)
    requires s == "test123@gmail.a" && local == "test123@" && domain == "gmail.a"
    ensures !ValidateEmailAddress(s)
  {
    ReadsTest123At(local);
    ReadsGmailDotA(domain);
    Then(LocalStart, s, local, domain, DomainStart, LabelOneLetter);
  }

  lemma Rejects3(s: string, prefix: string, rest: string)
    requires s == "test123@.com" && prefix == "test123@." && rest == "com"
    ensures !ValidateEmailAddress(s)
  {
    ReadsTest123AtDot(prefix);
    Stuck(s, prefix, rest);
  }

  lemma Rejects4(s: string, prefix: string, rest: string)
    requires s == "test123@.com.com" && prefix == "test123@." && rest == "com.com"
    ensures !ValidateEmailAddress(s)
  {
    ReadsTest123AtDot(prefix);
    Stuck(s, prefix, rest);
  }

  lemma Rejects5(s: string, prefix: string, rest: string)
    requires s == ".test@test.com" && prefix == "." && rest == "test@test.com"
    ensures !ValidateEmailAddress(s)
  {
    ReadsDot(prefix);
    Stuck(s, prefix, rest);
  }

  lemma Rejects6(s: string, prefix: string, rest: string)
    requires s == "test()*@gmail.com" && prefix == "test(" && rest == ")*@gmail.com"
    ensures !ValidateEmailAddress(s)
  {
    ReadsTestParen(prefix);
    Stuck(s, prefix, rest);
  }

  lemma Rejects7(s: string, prefix: string, rest: string)
    requires s == "test@%*.com" && prefix == "test@%" && rest == "*.com"
    ensures !ValidateEmailAddress(s)
  {
    ReadsTestAtPercent(prefix);
    Stuck(s, prefix, rest);
  }

  lemma Rejects8(s: string, prefix: string, rest: string)
    requires s == "test..2002@gmail.com" && prefix == "test.." && rest == "2002@gmail.com"
    ensures !ValidateEmailAddress(s)
  {
    ReadsTestDotDot(prefix);
    Stuck(s, prefix, rest);
  }

  lemma Rejects9(s: string, prefix: string, rest: string)
    requires s == "test.@gmail.com" && prefix == "test.@" && rest == "gmail.com"
    ensures !ValidateEmailAddress(s)
  {
    ReadsTestDotAt(prefix);
    Stuck(s, prefix, rest);
  }

  lemma Rejects10(s: string, prefix: string, rest: string)
    requires s == "test@test@gmail.com" && prefix == "test@test@" && rest == "gmail.com"
    ensures !ValidateEmailAddress(s)
  {
    ReadsTestAtTestAt(prefix);
    Stuck(s, prefix, rest);
  }

  lemma Rejects11(s: string, local: string, domain: string, last: string)
    requires s == "test@gmail.com.1a" && local == "test@" && domain == "gmail.com." && last == "1a"
    ensures !ValidateEmailAddress(s)
  {
    ReadsTestAt(local);
    ReadsGmailDotComDot(domain);
    Reads1aFromDomainDot(last);
    Then(DomainStart, domain + last, domain, last, DomainDot, LabelMixed);
    Then(LocalStart, s, local, domain + last, DomainStart, LabelMixed);
  }

  // The phase each piece leads to, one piece per lemma.

  lemma ReadsTestAt(w: string)
    requires w == "test@"
    ensures Run(LocalStart, w) == DomainStart
  {
    assert Run(LocalStart, "test@") == DomainStart;
  }

  lemma ReadsYahooDotCom(w: string)
    requires w == "yahoo.com"
    ensures Run(DomainStart, w) == LabelLetters
  {
    assert Run(DomainStart, "yahoo.com") == LabelLetters;
  }

  lemma ReadsTestDash100At(w: string)
    requires w == "test-100@"
    ensures Run(LocalStart, w) == DomainStart
  {
    assert Run(LocalStart, "test-100@") == DomainStart;
  }

  lemma ReadsTestDot100At(w: string)
    requires w == "test.100@"
    ensures Run(LocalStart, w) == DomainStart
  {
    assert Run(LocalStart, "test.100@") == DomainStart;
  }

  lemma ReadsTest111At(w: string)
    requires w == "test111@"
    ensures Run(LocalStart, w) == DomainStart
  {
    assert Run(LocalStart, "test111@") == DomainStart;
  }

  lemma ReadsTestDotCom(w: string)
    requires w == "test.com"
    ensures Run(DomainStart, w) == LabelLetters
  {
    assert Run(DomainStart, "test.com") == LabelLetters;
  }

  lemma ReadsTestDotNet(w: string)
    requires w == "test.net"
    ensures Run(DomainStart, w) == LabelLetters
  {
    assert Run(DomainStart, "test.net") == LabelLetters;
  }

  lemma ReadsTestDotComDot(w: string)
    requires w == "test.com."
    ensures Run(DomainStart, w) == DomainDot
  {
    assert Run(DomainStart, "test.com.") == DomainDot;
  }

  lemma ReadsAuFromDomainDot(w: string)
    requires w == "au"
    ensures Run(DomainDot, w) == LabelLetters
  {
    assert Run(DomainDot, "au") == LabelLetters;
  }

  lemma Reads1DotCom(w: string)
    requires w == "1.com"
    ensures Run(DomainStart, w) == LabelLetters
  {
    assert Run(DomainStart, "1.com") == LabelLetters;
  }

  lemma ReadsGmailDotComDot(w: string)
    requires w == "gmail.com."
    ensures Run(DomainStart, w) == DomainDot
  {
    assert Run(DomainStart, "gmail.com.") == DomainDot;
  }

  lemma ReadsComFromDomainDot(w: string)
    requires w == "com"
    ensures Run(DomainDot, w) == LabelLetters
  {
    assert Run(DomainDot, "com") == LabelLetters;
  }

  lemma ReadsTestPlus100At(w: string)
    requires w == "test+100@"
    ensures Run(LocalStart, w) == DomainStart
  {
    assert Run(LocalStart, "test+100@") == DomainStart;
  }

  lemma ReadsGmailDotCom(w: string)
    requires w == "gmail.com"
    ensures Run(DomainStart, w) == LabelLetters
  {
    assert Run(DomainStart, "gmail.com") == LabelLetters;
  }

  lemma ReadsYahooDash(w: string)
    requires w == "yahoo-"
    ensures Run(DomainStart, w) == DomainFirst
  {
    assert Run(DomainStart, "yahoo-") == DomainFirst;
  }

  lemma ReadsTestDotComFromDomainFirst(w: string)
    requires w == "test.com"
    ensures Run(DomainFirst, w) == LabelLetters
  {
    assert Run(DomainFirst, "test.com") == LabelLetters;
  }

  lemma ReadsTestAtDot(w: string)
    requires w == "test@."
    ensures Run(LocalStart, w) == Reject
  {
    assert Run(LocalStart, "test@.") == Reject;
  }

  lemma ReadsTest123At(w: string)
    requires w == "test123@"
    ensures Run(LocalStart, w) == DomainStart
  {
    assert Run(LocalStart, "test123@") == DomainStart;
  }

  lemma ReadsGmailDotA(w: string)
    requires w == "gmail.a"
    ensures Run(DomainStart, w) == LabelOneLetter
  {
    assert Run(DomainStart, "gmail.a") == LabelOneLetter;
  }

  lemma ReadsTest123AtDot(w: string)
    requires w == "test123@."
    ensures Run(LocalStart, w) == Reject
  {
    assert Run(LocalStart, "test123@.") == Reject;
  }

  lemma ReadsDot(w: string)
    requires w == "."
    ensures Run(LocalStart, w) == Reject
  {
    assert Run(LocalStart, ".") == Reject;
  }

  lemma ReadsTestParen(w: string)
    requires w == "test("
    ensures Run(LocalStart, w) == Reject
  {
    assert Run(LocalStart, "test(") == Reject;
  }

  lemma ReadsTestAtPercent(w: string)
    requires w == "test@%"
    ensures Run(LocalStart, w) == Reject
  {
    assert Run(LocalStart, "test@%") == Reject;
  }

  lemma ReadsTestDotDot(w: string)
    requires w == "test.."
    ensures Run(LocalStart, w) == Reject
  {
    assert Run(LocalStart, "test..") == Reject;
  }

  lemma ReadsTestDotAt(w: string)
    requires w == "test.@"
    ensures Run(LocalStart, w) == Reject
  {
    assert Run(LocalStart, "test.@") == Reject;
  }

  lemma ReadsTestAtTestAt(w: string)
    requires w == "test@test@"
    ensures Run(LocalStart, w) == Reject
  {
    assert Run(LocalStart, "test@test@") == Reject;
  }

  lemma Reads1aFromDomainDot(w: string)
    requires w == "1a"
    ensures Run(DomainDot, w) == LabelMixed
  {
    assert Run(DomainDot, "1a") == LabelMixed;
  }
}
