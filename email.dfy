/** The e-mail test of the contact form, `/^[^\s@]+@[^\s@]+\.[^\s@]+$/.test(s)`.
    The pattern's meaning is stated as the split of `s` that the pattern's
    concatenation describes; the executable test is a scanner over the
    characters of `s` (the automaton a regular-expression engine builds for
    the pattern), and `ScannerMatchesPattern` proves the two agree on every
    string. */
module EmailPattern {
  import opened Text

  /** A character of the class `[^\s@]`. */
  predicate Plain(c: char) {
    !IsSpace(c) && c != '@'
  }

  /** A run of `[^\s@]` characters (possibly empty). */
  predicate AllPlain(s: string) {
    forall i :: 0 <= i < |s| ==> Plain(s[i])
  }

  /** `s` is matched by `^[^\s@]+@[^\s@]+\.[^\s@]+$`: it splits as a non-empty
      plain run, `@`, a non-empty plain run, `.`, and a non-empty plain run. */
  ghost predicate MatchesEmailRegex(s: string) {
    exists at, dot ::
      0 < at && at + 1 < dot && dot + 1 < |s| && s[at] == '@' && s[dot] == '.'
      && AllPlain(s[..at]) && AllPlain(s[at + 1..dot]) && AllPlain(s[dot + 1..])
  }

  /** The states of the scanner: what the prefix read so far is. */
  datatype Scan =
    | Start    // nothing read
    | Local    // a non-empty local part
    | AtSign   // the local part and `@`
    | Host     // some host characters, no usable `.` yet
    | HostDot  // host characters ending in a `.` that may separate the top-level part
    | Tld      // a complete address: the pattern matches this prefix
    | Reject   // no extension of the prefix can match

  /** One character of input. */
  function Step(q: Scan, c: char): Scan {
    if IsSpace(c) then Reject
    else match q
      case Start => if c == '@' then Reject else Local
      case Local => if c == '@' then AtSign else Local
      case AtSign => if c == '@' then Reject else Host
      case Host => if c == '@' then Reject else if c == '.' then HostDot else Host
      case HostDot => if c == '@' then Reject else Tld
      case Tld => if c == '@' then Reject else Tld
      case Reject => Reject
  }

  /** The state reached from `q` after reading `s`. */
  function Run(q: Scan, s: string): Scan
    decreases |s|
  {
    if s == [] then q else Run(Step(q, s[0]), s[1..])
  }

  /** The contact form's e-mail test. */
  predicate IsEmailAddress(s: string) {
    Run(Start, s) == Tld
  }

  /** The host-and-top-level part after `@`: a plain run with a `.` that has
      at least one character before it and one after it. */
  predicate HostOk(d: string) {
    AllPlain(d) && exists j :: 1 <= j < |d| - 1 && d[j] == '.'
  }

  /** `s` has its `@` at position `at`, a plain run before it and a valid
      host part after it. */
  predicate AtSplit(s: string, at: int) {
    0 <= at < |s| && s[at] == '@' && AllPlain(s[..at]) && HostOk(s[at + 1..])
  }

  /** The pattern's split, stated through the position of the single `@`. */
  ghost predicate EmailShape(s: string) {
    exists at :: 0 < at && AtSplit(s, at)
  }

  /** `Reject` is the scanner's sink: once in it, no further input leaves it. */
  lemma {:induction false} RunReject(s: string)
    ensures Run(Reject, s) == Reject
    decreases |s|
  {
    if s != [] {
      RunReject(s[1..]);
    }
  }

  lemma {:induction false} RunTld(s: string)
    ensures Run(Tld, s) == Tld <==> AllPlain(s)
    decreases |s|
  {
    if s != [] {
      if Plain(s[0]) {
        RunTld(s[1..]);
        if AllPlain(s[1..]) {
          forall i | 0 <= i < |s| ensures Plain(s[i]) {
            if i > 0 { assert s[i] == s[1..][i - 1]; }
          }
        }
      } else {
        RunReject(s[1..]);
      }
    }
  }

  lemma RunHostDot(s: string)
    ensures Run(HostDot, s) == Tld <==> s != [] && AllPlain(s)
  {
    if s != [] {
      if Plain(s[0]) {
        RunTld(s[1..]);
        if AllPlain(s[1..]) {
          forall i | 0 <= i < |s| ensures Plain(s[i]) {
            if i > 0 { assert s[i] == s[1..][i - 1]; }
          }
        }
      } else {
        RunReject(s[1..]);
      }
    }
  }

  lemma {:induction false} RunHost(s: string)
    ensures Run(Host, s) == Tld <==> AllPlain(s) && exists j :: 0 <= j < |s| - 1 && s[j] == '.'
    decreases |s|
  {
    if s != [] {
      var t := s[1..];
      if !Plain(s[0]) {
        RunReject(t);
      } else {
        assert AllPlain(s) <==> AllPlain(t) by {
          if AllPlain(t) {
            forall i | 0 <= i < |s| ensures Plain(s[i]) {
              if i > 0 { assert s[i] == t[i - 1]; }
            }
          }
        }
        if s[0] == '.' {
          RunHostDot(t);
        } else {
          RunHost(t);
          if exists j :: 0 <= j < |s| - 1 && s[j] == '.' {
            var j :| 0 <= j < |s| - 1 && s[j] == '.';
            assert t[j - 1] == '.';
          }
          if exists j :: 0 <= j < |t| - 1 && t[j] == '.' {
            var j :| 0 <= j < |t| - 1 && t[j] == '.';
            assert s[j + 1] == '.';
          }
        }
      }
    }
  }

  lemma RunAtSign(d: string)
    ensures Run(AtSign, d) == Tld <==> HostOk(d)
  {
    if d != [] {
      var t := d[1..];
      if !Plain(d[0]) {
        RunReject(t);
      } else {
        RunHost(t);
        assert AllPlain(d) <==> AllPlain(t) by {
          if AllPlain(t) {
            forall i | 0 <= i < |d| ensures Plain(d[i]) {
              if i > 0 { assert d[i] == t[i - 1]; }
            }
          }
        }
        if exists j :: 1 <= j < |d| - 1 && d[j] == '.' {
          var j :| 1 <= j < |d| - 1 && d[j] == '.';
          assert t[j - 1] == '.';
        }
        if exists j :: 0 <= j < |t| - 1 && t[j] == '.' {
          var j :| 0 <= j < |t| - 1 && t[j] == '.';
          assert d[j + 1] == '.';
        }
      }
    }
  }

  lemma PlainHead(s: string)
    requires s != []
    ensures AllPlain(s) <==> Plain(s[0]) && AllPlain(s[1..])
  {
    if Plain(s[0]) && AllPlain(s[1..]) {
      forall i | 0 <= i < |s| ensures Plain(s[i]) {
        if i > 0 { assert s[i] == s[1..][i - 1]; }
      }
    }
  }

  /** Moving the split one character to the right past a plain head. */
  lemma ShiftSplit(s: string, at: nat)
    requires s != [] && Plain(s[0])
    ensures AtSplit(s, at + 1) <==> AtSplit(s[1..], at)
  {
    if at + 1 < |s| {
      var p := s[..at + 1];
      PlainHead(p);
      assert p[1..] == s[1..][..at];
      assert s[at + 2..] == s[1..][at + 1..];
    }
  }

  /** A split needs a plain run before the `@`, so it cannot sit after a
      head that is not plain. */
  lemma NoSplitAfterBadHead(s: string, at: int)
    requires s != [] && !Plain(s[0]) && 0 < at
    ensures !AtSplit(s, at)
  {
    if at < |s| {
      assert s[..at][0] == s[0];
    }
  }

  lemma {:induction false} RunLocal(s: string)
    ensures Run(Local, s) == Tld <==> exists at :: AtSplit(s, at)
    decreases |s|
  {
    if s != [] {
      var t := s[1..];
      if s[0] == '@' {
        RunAtSign(t);
        assert s[..0] == [];
        assert HostOk(t) ==> AtSplit(s, 0);
        forall at | AtSplit(s, at) ensures at == 0 {
          if at > 0 { NoSplitAfterBadHead(s, at); }
        }
      } else if IsSpace(s[0]) {
        RunReject(t);
        forall at ensures !AtSplit(s, at) {
          if at > 0 { NoSplitAfterBadHead(s, at); }
        }
      } else {
        RunLocal(t);
        if exists at :: AtSplit(t, at) {
          var at :| AtSplit(t, at);
          ShiftSplit(s, at);
        }
        if exists at :: AtSplit(s, at) {
          var at :| AtSplit(s, at);
          assert at > 0;
          ShiftSplit(s, at - 1);
        }
      }
    }
  }

  /** The scanner accepts exactly the strings of the pattern's split shape. */
  lemma ScannerMatchesShape(s: string)
    ensures IsEmailAddress(s) <==> EmailShape(s)
  {
    assert EmailShape(s) <==> exists at :: 0 < at && AtSplit(s, at);
    if s != [] {
      var t := s[1..];
      if !Plain(s[0]) {
        RunReject(t);
        forall at | 0 < at ensures !AtSplit(s, at) {
          NoSplitAfterBadHead(s, at);
        }
      } else {
        RunLocal(t);
        if exists at :: AtSplit(t, at) {
          var at :| AtSplit(t, at);
          ShiftSplit(s, at);
        }
        if exists at :: 0 < at && AtSplit(s, at) {
          var at :| 0 < at && AtSplit(s, at);
          ShiftSplit(s, at - 1);
        }
      }
    }
  }

  /** A split shape is a match of the pattern. */
  lemma ShapeGivesMatch(s: string)
    requires EmailShape(s)
    ensures MatchesEmailRegex(s)
  {
    var at :| 0 < at && AtSplit(s, at);
    var d := s[at + 1..];
    var j :| 1 <= j < |d| - 1 && d[j] == '.';
    var dot := at + 1 + j;
    assert s[dot] == '.';
    var host, tld := s[at + 1..dot], s[dot + 1..];
    forall i | 0 <= i < |host| ensures Plain(host[i]) {
      assert host[i] == d[i];
    }
    forall i | 0 <= i < |tld| ensures Plain(tld[i]) {
      assert tld[i] == d[j + 1 + i];
    }
  }

  /** A match of the pattern has the split shape. */
  lemma MatchGivesShape(s: string)
    requires MatchesEmailRegex(s)
    ensures EmailShape(s)
  {
    var at, dot :| 0 < at && at + 1 < dot && dot + 1 < |s| && s[at] == '@' && s[dot] == '.'
      && AllPlain(s[..at]) && AllPlain(s[at + 1..dot]) && AllPlain(s[dot + 1..]);
    var d := s[at + 1..];
    forall i | 0 <= i < |d| ensures Plain(d[i]) {
      if i < dot - at - 1 {
        assert d[i] == s[at + 1..dot][i];
      } else if i > dot - at - 1 {
        assert d[i] == s[dot + 1..][i - (dot - at)];
      }
    }
    assert d[dot - at - 1] == '.';
    assert AtSplit(s, at);
  }

  /** The executable test accepts exactly the strings the pattern matches. */
  lemma ScannerMatchesPattern(s: string)
    ensures IsEmailAddress(s) <==> MatchesEmailRegex(s)
  {
    ScannerMatchesShape(s);
    if EmailShape(s) {
      ShapeGivesMatch(s);
    }
    if MatchesEmailRegex(s) {
      MatchGivesShape(s);
    }
  }

  /** A string the pattern matches has no whitespace anywhere, in particular
      none around it. */
  lemma MatchHasNoSpace(s: string)
    requires MatchesEmailRegex(s)
    ensures forall i :: 0 <= i < |s| ==> !IsSpace(s[i])
  {
    var at, dot :| 0 < at && at + 1 < dot && dot + 1 < |s| && s[at] == '@' && s[dot] == '.'
      && AllPlain(s[..at]) && AllPlain(s[at + 1..dot]) && AllPlain(s[dot + 1..]);
    forall i | 0 <= i < |s| ensures !IsSpace(s[i]) {
      if i < at {
        assert s[i] == s[..at][i];
      } else if at < i < dot {
        assert s[i] == s[at + 1..dot][i - at - 1];
      } else if i > dot {
        assert s[i] == s[dot + 1..][i - dot - 1];
      }
    }
  }
}
