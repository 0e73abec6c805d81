/** The structural e-mail address check of the service: the language of
    the pattern

      ^[_A-Za-z0-9-\+]+(\.[_A-Za-z0-9-]+)*@[A-Za-z0-9-]+(\.[A-Za-z0-9]+)*(\.[A-Za-z]{2,})$

    matched against the whole input. The recogniser ValidateEmailAddress is
    written as a scanner that reads the input once, left to right, through a
    small set of phases; IsEmailAddress states the same language in terms of
    the '@'-separated and '.'-separated parts of the input, and
    ValidateEmailAddress is proved to accept exactly that language. */
module EmailPattern {

  // ---------------------------------------------------------------------
  // Character classes of the pattern
  // ---------------------------------------------------------------------

  predicate IsLetter(c: char) { 'A' <= c <= 'Z' || 'a' <= c <= 'z' }

  predicate IsDigit(c: char) { '0' <= c <= '9' }

  predicate IsAlnum(c: char) { IsLetter(c) || IsDigit(c) }

  /** The bracketed character classes that occur in the pattern. */
  datatype CharClass =
    | LocalFirstChars   // [_A-Za-z0-9-\+]  first segment of the local part
    | LocalChars        // [_A-Za-z0-9-]    later segments of the local part
    | DomainFirstChars  // [A-Za-z0-9-]     first label of the domain
    | Alnum             // [A-Za-z0-9]      middle labels of the domain
    | Letters           // [A-Za-z]         last label of the domain

  predicate InClass(c: char, k: CharClass) {
    match k
    case LocalFirstChars => IsAlnum(c) || c == '_' || c == '-' || c == '+'
    case LocalChars => IsAlnum(c) || c == '_' || c == '-'
    case DomainFirstChars => IsAlnum(c) || c == '-'
    case Alnum => IsAlnum(c)
    case Letters => IsLetter(c)
  }

  /** No class of the pattern contains a separator. */
  lemma SeparatorsInNoClass(k: CharClass)
    ensures !InClass('.', k) && !InClass('@', k)
  {
  }

  ghost predicate AllIn(s: seq<char>, k: CharClass) {
    forall i :: 0 <= i < |s| ==> InClass(s[i], k)
  }

  /** One or more characters of class k: the pattern's `[...]+`. */
  ghost predicate Word(s: seq<char>, k: CharClass) {
    s != [] && AllIn(s, k)
  }

  // ---------------------------------------------------------------------
  // Splitting on a separator
  // ---------------------------------------------------------------------

  /** The parts of s between occurrences of sep, empty parts included
      (so there is always one part more than there are separators). */
  function Split(s: seq<char>, sep: char): (parts: seq<seq<char>>)
    ensures |parts| >= 1
    decreases |s|
  {
    if s == [] then [[]]
    else if s[0] == sep then [[]] + Split(s[1..], sep)
    else
      var rest := Split(s[1..], sep);
      [[s[0]] + rest[0]] + rest[1..]
  }

  /** The parts joined back together with sep between them. */
  function Join(parts: seq<seq<char>>, sep: char): seq<char>
    requires |parts| >= 1
  {
    if |parts| == 1 then parts[0] else parts[0] + [sep] + Join(parts[1..], sep)
  }

  /** Number of occurrences of c in s. */
  function Count(s: seq<char>, c: char): nat {
    if s == [] then 0 else (if s[0] == c then 1 else 0) + Count(s[1..], c)
  }

  /** Splitting loses nothing: joining the parts gives back the input. */
  lemma {:induction false} JoinSplit(s: seq<char>, sep: char)
    ensures Join(Split(s, sep), sep) == s
    decreases |s|
  {
    if s == [] {
    } else if s[0] == sep {
      JoinSplit(s[1..], sep);
      assert s == [sep] + s[1..];
    } else {
      var rest := Split(s[1..], sep);
      var parts := [[s[0]] + rest[0]] + rest[1..];
      JoinSplit(s[1..], sep);
      if |rest| == 1 {
        assert s == [s[0]] + rest[0];
      } else {
        assert parts[1..] == rest[1..];
        calc {
          Join(parts, sep);
          ([s[0]] + rest[0]) + [sep] + Join(rest[1..], sep);
          [s[0]] + (rest[0] + [sep] + Join(rest[1..], sep));
          [s[0]] + s[1..];
        }
      }
    }
  }

  /** No part contains the separator. */
  lemma {:induction false} SplitPartsSeparatorFree(s: seq<char>, sep: char)
    ensures forall i :: 0 <= i < |Split(s, sep)| ==> sep !in Split(s, sep)[i]
    decreases |s|
  {
    if s != [] {
      SplitPartsSeparatorFree(s[1..], sep);
    }
  }

  /** There is exactly one part more than there are separators. */
  lemma {:induction false} SplitLength(s: seq<char>, sep: char)
    ensures |Split(s, sep)| == Count(s, sep) + 1
    decreases |s|
  {
    if s != [] {
      SplitLength(s[1..], sep);
    }
  }

  /** Without a separator the input is its own single part. */
  lemma {:induction false} SplitWithoutSeparator(s: seq<char>, sep: char)
    requires sep !in s
    ensures Split(s, sep) == [s]
    decreases |s|
  {
    if s != [] {
      assert sep !in s[1..] by {
        forall i | 0 <= i < |s[1..]| ensures s[1..][i] != sep {
          assert s[1..][i] == s[i + 1];
        }
      }
      SplitWithoutSeparator(s[1..], sep);
      assert s == [s[0]] + s[1..];
    }
  }

  /** With a separator there are at least two parts. */
  lemma {:induction false} SplitWithSeparator(s: seq<char>, sep: char)
    requires sep in s
    ensures |Split(s, sep)| >= 2
    decreases |s|
  {
    if s[0] != sep {
      assert sep in s[1..] by {
        var i :| 0 <= i < |s| && s[i] == sep;
        assert s[1..][i - 1] == sep;
      }
      SplitWithSeparator(s[1..], sep);
    }
  }

  // ---------------------------------------------------------------------
  // The language, stated on parts
  // ---------------------------------------------------------------------

  /** Every '.'-segment of the local part after the first is a word over
      [_A-Za-z0-9-]. */
  ghost predicate LaterLocalSegments(segs: seq<seq<char>>) {
    forall i :: 1 <= i < |segs| ==> Word(segs[i], LocalChars)
  }

  /** The part before '@': '.'-separated non-empty segments, the first over
      [_A-Za-z0-9-+], every later one over [_A-Za-z0-9-]. */
  ghost predicate IsLocalPart(l: seq<char>) {
    var segs := Split(l, '.');
    Word(segs[0], LocalFirstChars) && LaterLocalSegments(segs)
  }

  /** The part after '@': at least two '.'-separated labels; the first a word
      over [A-Za-z0-9-], the middle ones words over [A-Za-z0-9], the last at
      least two letters. */
  ghost predicate IsDomain(d: seq<char>) {
    var labels := Split(d, '.');
    && |labels| >= 2
    && Word(labels[0], DomainFirstChars)
    && (forall i :: 1 <= i < |labels| - 1 ==> Word(labels[i], Alnum))
    && |labels[|labels| - 1]| >= 2 && AllIn(labels[|labels| - 1], Letters)
  }

  /** The language of the pattern: exactly one '@', a local part before it
      and a domain after it. */
  ghost predicate IsEmailAddress(s: seq<char>) {
    var parts := Split(s, '@');
    |parts| == 2 && IsLocalPart(parts[0]) && IsDomain(parts[1])
  }

  /** "Exactly one '@'" is what the two-part condition says. */
  lemma ExactlyOneAt(s: seq<char>)
    ensures IsEmailAddress(s) ==> Count(s, '@') == 1
  {
    SplitLength(s, '@');
  }

  // ---------------------------------------------------------------------
  // The recogniser
  // ---------------------------------------------------------------------

  /** Where the scanner stands in the pattern after the input read so far. */
  datatype Phase =
    | LocalStart      // nothing read
    | LocalFirst      // inside the first local segment
    | LocalDot        // just after a '.' of the local part
    | LocalRest       // inside a later local segment
    | DomainStart     // just after the '@'
    | DomainFirst     // inside the first domain label
    | DomainDot       // just after a '.' of the domain
    | LabelOneLetter  // a later label holding one letter so far
    | LabelLetters    // a later label holding two or more letters so far
    | LabelMixed      // a later label holding a digit: it cannot be the last
    | Reject          // no continuation can match
  {
    predicate IsLocal() {
      LocalStart? || LocalFirst? || LocalDot? || LocalRest?
    }
  }

  function Step(q: Phase, c: char): Phase {
    match q
    case LocalStart =>
      if InClass(c, LocalFirstChars) then LocalFirst else Reject
    case LocalFirst =>
      if InClass(c, LocalFirstChars) then LocalFirst
      else if c == '.' then LocalDot
      else if c == '@' then DomainStart
      else Reject
    case LocalDot =>
      if InClass(c, LocalChars) then LocalRest else Reject
    case LocalRest =>
      if InClass(c, LocalChars) then LocalRest
      else if c == '.' then LocalDot
      else if c == '@' then DomainStart
      else Reject
    case DomainStart =>
      if InClass(c, DomainFirstChars) then DomainFirst else Reject
    case DomainFirst =>
      if InClass(c, DomainFirstChars) then DomainFirst
      else if c == '.' then DomainDot
      else Reject
    case DomainDot =>
      if IsLetter(c) then LabelOneLetter
      else if IsDigit(c) then LabelMixed
      else Reject
    case LabelOneLetter =>
      if IsLetter(c) then LabelLetters
      else if IsDigit(c) then LabelMixed
      else if c == '.' then DomainDot
      else Reject
    case LabelLetters =>
      if IsLetter(c) then LabelLetters
      else if IsDigit(c) then LabelMixed
      else if c == '.' then DomainDot
      else Reject
    case LabelMixed =>
      if IsAlnum(c) then LabelMixed
      else if c == '.' then DomainDot
      else Reject
    case Reject => Reject
  }

  /** The phase reached from q after reading all of s. */
  function Run(q: Phase, s: seq<char>): Phase
    decreases |s|
  {
    if s == [] then q else Run(Step(q, s[0]), s[1..])
  }

  /** Whole-input match of the pattern: the scan ends inside a last label of
      at least two letters. */
  function ValidateEmailAddress(s: seq<char>): bool {
    Run(LocalStart, s) == LabelLetters
  }

  /** The recogniser accepts exactly the language of the pattern. */
  lemma ValidateEmailAddressCorrect(s: seq<char>)
    ensures ValidateEmailAddress(s) <==> IsEmailAddress(s)
  {
    RunAccepts(LocalStart, s);
    EmailAddressIsLang(s);
  }

  // ---------------------------------------------------------------------
  // Correctness of the recogniser
  // ---------------------------------------------------------------------

  /** The local-part condition still to be met from a local phase, for the
      remaining text l before the '@'. */
  ghost predicate LocalLang(q: Phase, l: seq<char>)
    requires q.IsLocal()
  {
    var segs := Split(l, '.');
    && LaterLocalSegments(segs)
    && match q
       case LocalStart => Word(segs[0], LocalFirstChars)
       case LocalFirst => AllIn(segs[0], LocalFirstChars)
       case LocalDot => Word(segs[0], LocalChars)
       case LocalRest => AllIn(segs[0], LocalChars)
  }

  /** Labels that follow the first label of a domain: all but the last are
      words over [A-Za-z0-9], the last has at least two letters. */
  ghost predicate TrailingLabels(ls: seq<seq<char>>) {
    && |ls| >= 1
    && (forall i :: 0 <= i < |ls| - 1 ==> Word(ls[i], Alnum))
    && |ls[|ls| - 1]| >= 2 && AllIn(ls[|ls| - 1], Letters)
  }

  /** The domain condition still to be met from a domain phase, for the
      remaining text d. */
  ghost predicate DomainLang(q: Phase, d: seq<char>)
    requires !q.IsLocal() && q != Reject
  {
    var labels := Split(d, '.');
    match q
    case DomainStart =>
      Word(labels[0], DomainFirstChars) && |labels| >= 2 && TrailingLabels(labels[1..])
    case DomainFirst =>
      AllIn(labels[0], DomainFirstChars) && |labels| >= 2 && TrailingLabels(labels[1..])
    case DomainDot =>
      TrailingLabels(labels)
    case LabelOneLetter =>
      if |labels| == 1 then Word(labels[0], Letters)
      else AllIn(labels[0], Alnum) && TrailingLabels(labels[1..])
    case LabelLetters =>
      if |labels| == 1 then AllIn(labels[0], Letters)
      else AllIn(labels[0], Alnum) && TrailingLabels(labels[1..])
    case LabelMixed =>
      |labels| > 1 && AllIn(labels[0], Alnum) && TrailingLabels(labels[1..])
  }

  /** What the rest w of the input must be for the whole input to match,
      given that the scanner stands in phase q. */
  ghost predicate Lang(q: Phase, w: seq<char>) {
    if q.IsLocal() then
      var parts := Split(w, '@');
      |parts| == 2 && LocalLang(q, parts[0]) && IsDomain(parts[1])
    else if q == Reject then false
    else DomainLang(q, w)
  }

  lemma AllInCons(c: char, s: seq<char>, k: CharClass)
    ensures AllIn([c] + s, k) <==> InClass(c, k) && AllIn(s, k)
  {
    var t := [c] + s;
    if AllIn(t, k) {
      assert t[0] == c;
      forall i | 0 <= i < |s| ensures InClass(s[i], k) {
        assert t[i + 1] == s[i];
      }
    }
    if InClass(c, k) && AllIn(s, k) {
      forall i | 0 <= i < |t| ensures InClass(t[i], k) {
        if i > 0 { assert t[i] == s[i - 1]; }
      }
    }
  }

  /** Reading a character that is not '@' in a local phase. */
  lemma {:induction false} LocalStep(q: Phase, c: char, w: seq<char>)
    requires q.IsLocal() && c != '@'
    ensures Lang(q, [c] + w) == Lang(Step(q, c), w)
  {
    var parts := Split(w, '@');
    assert Split([c] + w, '@') == [[c] + parts[0]] + parts[1..];
    var segs := Split(parts[0], '.');
    SeparatorsInNoClass(LocalFirstChars);
    SeparatorsInNoClass(LocalChars);
    if c == '.' {
      assert Split([c] + parts[0], '.') == [[]] + segs;
      LaterLocalSegmentsCons([], segs);
    } else {
      assert Split([c] + parts[0], '.') == [[c] + segs[0]] + segs[1..];
      AllInCons(c, segs[0], LocalFirstChars);
      AllInCons(c, segs[0], LocalChars);
      assert LaterLocalSegments([[c] + segs[0]] + segs[1..]) <==> LaterLocalSegments(segs) by {
        assert forall i :: 1 <= i < |segs| ==> ([[c] + segs[0]] + segs[1..])[i] == segs[i];
      }
    }
  }

  /** A segment placed in front of local segments. */
  lemma LaterLocalSegmentsCons(first: seq<char>, segs: seq<seq<char>>)
    requires |segs| >= 1
    ensures LaterLocalSegments([first] + segs) <==> Word(segs[0], LocalChars) && LaterLocalSegments(segs)
  {
    var all := [first] + segs;
    if LaterLocalSegments(all) {
      assert all[1] == segs[0];
      forall i | 1 <= i < |segs| ensures Word(segs[i], LocalChars) {
        assert all[i + 1] == segs[i];
      }
    }
    if Word(segs[0], LocalChars) && LaterLocalSegments(segs) {
      forall i | 1 <= i < |all| ensures Word(all[i], LocalChars) {
        assert all[i] == segs[i - 1];
      }
    }
  }

  /** Reading any character in a domain phase. */
  lemma {:induction false} DomainStep(q: Phase, c: char, d: seq<char>)
    requires !q.IsLocal() && q != Reject
    ensures Lang(q, [c] + d) == Lang(Step(q, c), d)
  {
    var labels := Split(d, '.');
    SeparatorsInNoClass(DomainFirstChars);
    SeparatorsInNoClass(Alnum);
    SeparatorsInNoClass(Letters);
    if c == '.' {
      assert Split([c] + d, '.') == [[]] + labels;
      assert ([[]] + labels)[1..] == labels;
      TrailingLabelsCons([], labels);
    } else {
      var first := [c] + labels[0];
      var split := [first] + labels[1..];
      assert Split([c] + d, '.') == split;
      assert split[1..] == labels[1..];
      AllInCons(c, labels[0], DomainFirstChars);
      AllInCons(c, labels[0], Alnum);
      AllInCons(c, labels[0], Letters);
      if |labels| > 1 {
        TrailingLabelsCons(first, labels[1..]);
        assert [first] + labels[1..] == split;
      } else {
        assert split == [first];
      }
    }
  }

  /** A label placed in front of trailing labels. */
  lemma TrailingLabelsCons(first: seq<char>, ls: seq<seq<char>>)
    requires |ls| >= 1
    ensures TrailingLabels([first] + ls) <==> Word(first, Alnum) && TrailingLabels(ls)
  {
    var all := [first] + ls;
    assert all[|all| - 1] == ls[|ls| - 1];
    if TrailingLabels(all) {
      assert all[0] == first;
      forall i | 0 <= i < |ls| - 1 ensures Word(ls[i], Alnum) {
        assert all[i + 1] == ls[i];
      }
    }
    if Word(first, Alnum) && TrailingLabels(ls) {
      forall i | 0 <= i < |all| - 1 ensures Word(all[i], Alnum) {
        if i > 0 { assert all[i] == ls[i - 1]; }
      }
    }
  }

  /** The phases of the domain never accept an '@'. */
  lemma {:induction false} DomainLangNoAt(q: Phase, d: seq<char>)
    requires !q.IsLocal() && q != Reject
    requires Lang(q, d)
    ensures '@' !in d
    decreases |d|
  {
    if d != [] {
      assert d == [d[0]] + d[1..];
      DomainStep(q, d[0], d[1..]);
      var q' := Step(q, d[0]);
      assert q' != Reject;
      assert d[0] != '@';
      DomainLangNoAt(q', d[1..]);
    }
  }

  /** Reading '@' in a local phase. */
  lemma AtStep(q: Phase, w: seq<char>)
    requires q.IsLocal()
    ensures Lang(q, ['@'] + w) == Lang(Step(q, '@'), w)
  {
    var parts := Split(w, '@');
    assert Split(['@'] + w, '@') == [[]] + parts;
    assert Split([], '.') == [[]];
    if '@' in w {
      SplitWithSeparator(w, '@');
      if Lang(DomainStart, w) {
        DomainLangNoAt(DomainStart, w);
        assert false;
      }
    } else {
      SplitWithoutSeparator(w, '@');
      IsDomainLang(w);
    }
  }

  /** The language left at the end of the input: only a last label of two
      or more letters is complete. */
  lemma EndOfInput(q: Phase)
    ensures Lang(q, []) <==> q == LabelLetters
  {
    assert Split([], '@') == [[]];
    assert Split([], '.') == [[]];
  }

  /** The scan from q accepts exactly the language still to be met from q. */
  lemma {:induction false} RunAccepts(q: Phase, w: seq<char>)
    ensures Run(q, w) == LabelLetters <==> Lang(q, w)
    decreases |w|
  {
    if w == [] {
      EndOfInput(q);
    } else {
      var c, w' := w[0], w[1..];
      assert w == [c] + w';
      if q == Reject {
        RejectStays(w');
      } else if !q.IsLocal() {
        DomainStep(q, c, w');
      } else if c == '@' {
        AtStep(q, w');
      } else {
        LocalStep(q, c, w');
      }
      RunAccepts(Step(q, c), w');
    }
  }

  /** Reading a concatenation is reading its pieces one after the other. */
  lemma {:induction false} RunAppend(q: Phase, a: seq<char>, b: seq<char>)
    ensures Run(q, a + b) == Run(Run(q, a), b)
    decreases |a|
  {
    if a == [] {
      assert a + b == b;
    } else {
      assert (a + b)[1..] == a[1..] + b;
      RunAppend(Step(q, a[0]), a[1..], b);
    }
  }

  /** Once no continuation can match, none ever will. */
  lemma {:induction false} RejectStays(w: seq<char>)
    ensures Run(Reject, w) == Reject
    decreases |w|
  {
    if w != [] {
      RejectStays(w[1..]);
    }
  }

  /** The domain language read from DomainStart is IsDomain. */
  lemma IsDomainLang(d: seq<char>)
    ensures IsDomain(d) <==> Lang(DomainStart, d)
  {
    var labels := Split(d, '.');
    if |labels| >= 2 {
      var tail := labels[1..];
      assert tail[|tail| - 1] == labels[|labels| - 1];
      assert forall i :: 0 <= i < |tail| - 1 ==> tail[i] == labels[i + 1];
    }
  }

  /** The whole language is the one read from LocalStart. */
  lemma EmailAddressIsLang(s: seq<char>)
    ensures IsEmailAddress(s) <==> Lang(LocalStart, s)
  {
  }
}
