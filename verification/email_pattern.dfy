/**
  The e-mail shape check of the contact endpoint: the JavaScript regular
  expression `^[^\s@]+@[^\s@]+\.[^\s@]+$` (server.js, line 52), written as an
  explicit left-to-right automaton over the characters of the address and
  proved to accept exactly the strings `local + "@" + d1 + "." + d2` whose
  three parts are non-empty runs of characters that are neither whitespace
  nor `@`.
 */
module EmailPattern {

  /** The ECMAScript `\s` class: the WhiteSpace and LineTerminator code points. */
  predicate IsSpace(c: char) {
    || c == '\t' || c == '\n' || c == '\U{000B}' || c == '\U{000C}' || c == '\r'
    || c == ' ' || c == '\U{00A0}' || c == '\U{1680}'
    || ('\U{2000}' <= c <= '\U{200A}')
    || c == '\U{2028}' || c == '\U{2029}' || c == '\U{202F}' || c == '\U{205F}'
    || c == '\U{3000}' || c == '\U{FEFF}'
  }

  /** The character class `[^\s@]`. */
  predicate Allowed(c: char) {
    !IsSpace(c) && c != '@'
  }

  predicate AllAllowed(t: string) {
    forall k :: 0 <= k < |t| ==> Allowed(t[k])
  }

  /** `[^\s@]+`: a non-empty run of allowed characters. */
  predicate Segment(t: string) {
    |t| > 0 && AllAllowed(t)
  }

  /** The declarative reading of the pattern. The last `.` need not be the
      separator: `d1` and `d2` may themselves contain dots. */
  ghost predicate EmailShape(s: string) {
    exists local, d1, d2 ::
      Segment(local) && Segment(d1) && Segment(d2) && s == local + "@" + d1 + "." + d2
  }

  /** States of the recogniser, named after what has been read so far. */
  datatype State =
    | Start      // nothing
    | InLocal    // one or more local-part characters
    | AfterAt    // the local part and the `@`
    | InHost     // at least one domain character, no separating dot yet
    | AfterDot   // a dot that can separate `d1` from `d2`
    | InTld      // the separating dot and at least one character after it
    | Rejected   // no continuation can match

  function Step(q: State, c: char): State {
    if !Allowed(c) then
      if c == '@' && q == InLocal then AfterAt else Rejected
    else
      match q
      case Start => InLocal
      case InLocal => InLocal
      case AfterAt => InHost
      case InHost => if c == '.' then AfterDot else InHost
      case AfterDot => InTld
      case InTld => InTld
      case Rejected => Rejected
  }

  function Run(q: State, s: string): State
    decreases |s|
  {
    if |s| == 0 then q else Run(Step(q, s[0]), s[1..])
  }

  /** `emailRegex.test(s)`: the automaton ends in its accepting state. */
  function MatchesEmailPattern(s: string): (ok: bool)
    ensures ok <==> EmailShape(s)
  {
    AcceptedIsEmailShape(s);
    EmailShapeIsAccepted(s);
    Run(Start, s) == InTld
  }

  // ---------------------------------------------------------------------
  // Soundness: whatever the automaton accepts has the declarative shape.

  /** What reaching state `q` says about the prefix `p` read so far. */
  ghost predicate Reached(q: State, p: string) {
    match q
    case Start => p == []
    case InLocal => Segment(p)
    case AfterAt => exists l :: Segment(l) && p == l + "@"
    case InHost => exists l, h :: Segment(l) && Segment(h) && p == l + "@" + h
    case AfterDot => exists l, h :: Segment(l) && Segment(h) && p == l + "@" + h + "."
    case InTld => EmailShape(p)
    case Rejected => true
  }

  lemma SegmentExtend(t: string, c: char)
    requires Segment(t) && Allowed(c)
    ensures Segment(t + [c])
  {
    assert forall k :: 0 <= k < |t| ==> (t + [c])[k] == t[k];
  }

  lemma StepReached(q: State, p: string, c: char)
    requires Reached(q, p)
    ensures Reached(Step(q, c), p + [c])
  {
    var p' := p + [c];
    if !Allowed(c) {
      if c == '@' && q == InLocal {
        assert p' == p + "@";
      }
    } else {
      match q
      case Start =>
        assert p' == [c];
      case InLocal =>
        SegmentExtend(p, c);
      case AfterAt =>
        var l :| Segment(l) && p == l + "@";
        assert Segment([c]);
        assert p' == l + "@" + [c];
      case InHost =>
        var l, h :| Segment(l) && Segment(h) && p == l + "@" + h;
        if c == '.' {
          assert p' == l + "@" + h + ".";
        } else {
          SegmentExtend(h, c);
          assert p' == l + "@" + (h + [c]);
        }
      case AfterDot =>
        var l, h :| Segment(l) && Segment(h) && p == l + "@" + h + ".";
        assert Segment([c]);
        assert p' == l + "@" + h + "." + [c];
      case InTld =>
        var l, d1, d2 :| Segment(l) && Segment(d1) && Segment(d2) && p == l + "@" + d1 + "." + d2;
        SegmentExtend(d2, c);
        assert p' == l + "@" + d1 + "." + (d2 + [c]);
      case Rejected =>
    }
  }

  lemma {:induction false} RunReached(q: State, p: string, s: string)
    requires Reached(q, p)
    ensures Reached(Run(q, s), p + s)
    decreases |s|
  {
    if |s| > 0 {
      StepReached(q, p, s[0]);
      RunReached(Step(q, s[0]), p + [s[0]], s[1..]);
      assert p + [s[0]] + s[1..] == p + s;
    }
  }

  lemma AcceptedIsEmailShape(s: string)
    ensures Run(Start, s) == InTld ==> EmailShape(s)
  {
    RunReached(Start, [], s);
    assert [] + s == s;
  }

  // ---------------------------------------------------------------------
  // Completeness: every string of the declarative shape is accepted.

  lemma {:induction false} RunAppend(q: State, a: string, b: string)
    ensures Run(q, a + b) == Run(Run(q, a), b)
    decreases |a|
  {
    if |a| > 0 {
      assert (a + b)[0] == a[0];
      assert (a + b)[1..] == a[1..] + b;
      calc {
        Run(q, a + b);
        Run(Step(q, a[0]), a[1..] + b);
        { RunAppend(Step(q, a[0]), a[1..], b); }
        Run(Run(Step(q, a[0]), a[1..]), b);
      }
    } else {
      assert a + b == b;
    }
  }

  /** Allowed characters keep the automaton inside the local part. */
  lemma {:induction false} RunLocal(t: string)
    requires AllAllowed(t)
    ensures Run(InLocal, t) == InLocal
    decreases |t|
  {
    if |t| > 0 {
      assert Step(InLocal, t[0]) == InLocal;
      RunLocal(t[1..]);
    }
  }

  predicate InDomain(q: State) {
    q == InHost || q == AfterDot || q == InTld
  }

  /** Allowed characters keep the automaton inside the domain part. */
  lemma {:induction false} RunDomain(q: State, t: string)
    requires InDomain(q) && AllAllowed(t)
    ensures InDomain(Run(q, t))
    decreases |t|
  {
    if |t| > 0 {
      RunDomain(Step(q, t[0]), t[1..]);
    }
  }

  /** Once past the separating dot, allowed characters keep it accepting. */
  lemma {:induction false} RunTld(t: string)
    requires AllAllowed(t)
    ensures Run(InTld, t) == InTld
    decreases |t|
  {
    if |t| > 0 {
      RunTld(t[1..]);
    }
  }

  lemma LocalPartRun(l: string)
    requires Segment(l)
    ensures Run(Start, l) == InLocal
  {
    assert Step(Start, l[0]) == InLocal;
    RunLocal(l[1..]);
  }

  lemma FirstLabelRun(d1: string)
    requires Segment(d1)
    ensures InDomain(Run(AfterAt, d1))
  {
    assert Step(AfterAt, d1[0]) == InHost;
    RunDomain(InHost, d1[1..]);
  }

  lemma LastPartRun(q: State, d2: string)
    requires q == AfterDot || q == InTld
    requires Segment(d2)
    ensures Run(q, d2) == InTld
  {
    assert Step(q, d2[0]) == InTld;
    RunTld(d2[1..]);
  }

  lemma RunSingle(q: State, c: char)
    ensures Run(q, [c]) == Step(q, c)
  {
    assert [c][1..] == [];
  }

  lemma ShapeAccepted(l: string, d1: string, d2: string)
    requires Segment(l) && Segment(d1) && Segment(d2)
    ensures Run(Start, l + "@" + d1 + "." + d2) == InTld
  {
    var p1 := l + "@";
    var p2 := p1 + d1;
    var p3 := p2 + ".";
    LocalPartRun(l);
    RunAppend(Start, l, "@");
    RunSingle(InLocal, '@');
    assert Run(Start, p1) == AfterAt;
    FirstLabelRun(d1);
    RunAppend(Start, p1, d1);
    var q2 := Run(Start, p2);
    assert InDomain(q2);
    RunAppend(Start, p2, ".");
    RunSingle(q2, '.');
    var q3 := Run(Start, p3);
    assert q3 == AfterDot || q3 == InTld;
    LastPartRun(q3, d2);
    RunAppend(Start, p3, d2);
  }

  lemma EmailShapeIsAccepted(s: string)
    ensures EmailShape(s) ==> Run(Start, s) == InTld
  {
    if EmailShape(s) {
      var l, d1, d2 :| Segment(l) && Segment(d1) && Segment(d2) && s == l + "@" + d1 + "." + d2;
      ShapeAccepted(l, d1, d2);
    }
  }

  /** The pattern accepts every address assembled from three segments. */
  lemma ShapeMatches(l: string, d1: string, d2: string)
    requires Segment(l) && Segment(d1) && Segment(d2)
    ensures MatchesEmailPattern(l + "@" + d1 + "." + d2)
  {
    ShapeAccepted(l, d1, d2);
  }

  // ---------------------------------------------------------------------
  // Consequences of acceptance.

  lemma AllowedHasNoAt(t: string)
    requires AllAllowed(t)
    ensures multiset(t)['@'] == 0
  {
  }

  /** Every character of `l + "@" + d1 + "." + d2` other than the one at
      index `|l|` belongs to the class `[^\s@]`. */
  lemma ShapeCharacters(s: string, l: string, d1: string, d2: string)
    requires Segment(l) && Segment(d1) && Segment(d2) && s == l + "@" + d1 + "." + d2
    ensures s[|l|] == '@' && s[|l| + 1 + |d1|] == '.'
    ensures forall k :: 0 <= k < |s| && k != |l| ==> Allowed(s[k])
  {
    var a := |l|;
    var d := a + 1 + |d1|;
    forall k | 0 <= k < |s| && k != a
      ensures Allowed(s[k])
    {
      if k < a {
        assert s[k] == l[k];
      } else if k < d {
        assert s[k] == d1[k - a - 1];
      } else if k == d {
        assert s[k] == '.';
      } else {
        assert s[k] == d2[k - d - 1];
      }
    }
  }

  /** An accepted address contains exactly one `@`. */
  lemma AcceptedHasOneAt(s: string)
    requires MatchesEmailPattern(s)
    ensures multiset(s)['@'] == 1
  {
    var l, d1, d2 :| Segment(l) && Segment(d1) && Segment(d2) && s == l + "@" + d1 + "." + d2;
    AllowedHasNoAt(l);
    AllowedHasNoAt(d1);
    AllowedHasNoAt(d2);
    assert multiset(s) == multiset(l) + multiset("@") + multiset(d1) + multiset(".") + multiset(d2);
  }

  /** An accepted address contains no whitespace. */
  lemma AcceptedHasNoSpace(s: string)
    requires MatchesEmailPattern(s)
    ensures forall k :: 0 <= k < |s| ==> !IsSpace(s[k])
  {
    var l, d1, d2 :| Segment(l) && Segment(d1) && Segment(d2) && s == l + "@" + d1 + "." + d2;
    ShapeCharacters(s, l, d1, d2);
  }

  /** In an accepted address, the text after the `@` has a dot that is
      neither its first nor its last character. */
  lemma AcceptedDomainHasInnerDot(s: string)
    requires MatchesEmailPattern(s)
    ensures forall a :: 0 <= a < |s| && s[a] == '@' ==>
              exists j :: a + 1 < j < |s| - 1 && s[j] == '.'
  {
    var l, d1, d2 :| Segment(l) && Segment(d1) && Segment(d2) && s == l + "@" + d1 + "." + d2;
    ShapeCharacters(s, l, d1, d2);
    var d := |l| + 1 + |d1|;
    forall a | 0 <= a < |s| && s[a] == '@'
      ensures a + 1 < d < |s| - 1
    {
      assert !Allowed(s[a]);
    }
  }
}
