/** Validation of one contact-form field (main.js:251-270): the trimmed value
    must be non-empty, and an `email` field must also match the pattern
    `^[^\s@]+@[^\s@]+\.[^\s@]+$` (main.js:261). The pattern is given its meaning
    as a predicate, and checked by a hand-written automaton proved equivalent. */
module EmailValidation {
  import opened Wrappers
  import opened JsStrings

  /** A character of the class `[^\s@]`. */
  predicate IsPlain(c: char) {
    !IsWhitespace(c) && c != '@'
  }

  ghost predicate AllPlain(s: string) {
    forall k :: 0 <= k < |s| ==> IsPlain(s[k])
  }

  /** The meaning of `^[^\s@]+@[^\s@]+\.[^\s@]+$`: three non-empty runs of
      characters other than whitespace and `@`, joined by an `@` and a `.`. */
  ghost predicate MatchesEmailPattern(s: string) {
    exists at, dot ::
      && 0 < at && at + 1 < dot && dot + 1 < |s|
      && s[at] == '@' && s[dot] == '.'
      && AllPlain(s[..at]) && AllPlain(s[at + 1..dot]) && AllPlain(s[dot + 1..])
  }

  /** There is a `.` at some index `d >= min` of `s` with a character after it. */
  ghost predicate HasDotFrom(s: string, min: nat) {
    exists d :: min <= d && d + 1 < |s| && s[d] == '.'
  }

  /** `s` splits at an `@` at index `at` into a plain local part and a plain
      domain holding a `.` with a character on each side. */
  ghost predicate SplitsAt(s: string, at: int) {
    && 0 <= at < |s| && s[at] == '@'
    && AllPlain(s[..at]) && AllPlain(s[at + 1..]) && HasDotFrom(s[at + 1..], 1)
  }

  // The matcher: a deterministic automaton for the pattern, one phase per
  // position in the pattern. `Domain` is the domain's first run, `AfterDot`
  // follows a `.` that may be the separator, `Tail` is inside the last run.
  datatype Phase = LocalStart | Local | DomainStart | Domain | AfterDot | Tail

  /** The phase after reading `c`, or None when the pattern cannot continue. */
  function Next(p: Phase, c: char): (q: Option<Phase>)
    ensures q.Some? ==> !IsWhitespace(c)
    ensures c == '@' ==> (q.Some? <==> p == Local)
  {
    if IsWhitespace(c) then None
    else match p
      case LocalStart => if c == '@' then None else Some(Local)
      case Local => Some(if c == '@' then DomainStart else Local)
      case DomainStart => if c == '@' then None else Some(Domain)
      case Domain => if c == '@' then None else Some(if c == '.' then AfterDot else Domain)
      case AfterDot => if c == '@' then None else Some(Tail)
      case Tail => if c == '@' then None else Some(Tail)
  }

  /** Whether the rest of the input `s` is accepted from phase `p`. */
  function Accepts(p: Phase, s: string): bool
    decreases |s|
  {
    if s == [] then p == Tail
    else match Next(p, s[0])
      case None => false
      case Some(q) => Accepts(q, s[1..])
  }

  /** `emailRegex.test(s)` for the pattern of main.js:261. */
  function IsEmail(s: string): (ok: bool)
    ensures ok ==> |s| >= 5
  {
    AcceptsLocalStart(s);
    Accepts(LocalStart, s)
  }

  lemma AllPlainCons(s: string)
    requires s != []
    ensures AllPlain(s) <==> IsPlain(s[0]) && AllPlain(s[1..])
  {
    if IsPlain(s[0]) && AllPlain(s[1..]) {
      forall k | 0 <= k < |s| ensures IsPlain(s[k]) {
        if k > 0 { assert s[k] == s[1..][k - 1]; }
      }
    }
  }

  lemma HasDotShift(s: string, min: nat)
    requires s != []
    ensures HasDotFrom(s, min + 1) <==> HasDotFrom(s[1..], min)
  {
    if HasDotFrom(s, min + 1) {
      var d :| min + 1 <= d && d + 1 < |s| && s[d] == '.';
      assert s[1..][d - 1] == '.';
    }
    if HasDotFrom(s[1..], min) {
      var d :| min <= d && d + 1 < |s[1..]| && s[1..][d] == '.';
      assert s[d + 1] == '.';
    }
  }

  lemma {:induction false} AcceptsTail(s: string)
    ensures Accepts(Tail, s) <==> AllPlain(s)
  {
    if s != [] {
      AllPlainCons(s);
      AcceptsTail(s[1..]);
    }
  }

  lemma AcceptsAfterDot(s: string)
    ensures Accepts(AfterDot, s) <==> s != [] && AllPlain(s)
  {
    if s != [] {
      AllPlainCons(s);
      AcceptsTail(s[1..]);
    }
  }

  lemma {:induction false} AcceptsDomain(s: string)
    ensures Accepts(Domain, s) <==> AllPlain(s) && HasDotFrom(s, 0)
  {
    if s != [] {
      AllPlainCons(s);
      HasDotShift(s, 0);
      if s[0] == '.' {
        AcceptsAfterDot(s[1..]);
        if s[1..] != [] { assert s[0] == '.' && 1 < |s|; }
      } else {
        AcceptsDomain(s[1..]);
        if HasDotFrom(s, 0) {
          var d :| 0 <= d && d + 1 < |s| && s[d] == '.';
          assert d != 0;
        }
      }
    }
  }

  lemma AcceptsDomainStart(s: string)
    ensures Accepts(DomainStart, s) <==> AllPlain(s) && HasDotFrom(s, 1)
  {
    if s != [] {
      AllPlainCons(s);
      HasDotShift(s, 0);
      AcceptsDomain(s[1..]);
    }
  }

  /** Moving the split point across one leading plain character. */
  lemma SplitsAtShift(s: string, at: int)
    requires s != [] && IsPlain(s[0])
    ensures SplitsAt(s, at + 1) <==> SplitsAt(s[1..], at)
  {
    if 0 <= at < |s| - 1 {
      assert s[..at + 1][1..] == s[1..][..at];
      assert s[at + 2..] == s[1..][at + 1..];
      AllPlainCons(s[..at + 1]);
    }
  }

  lemma {:induction false} AcceptsLocal(s: string)
    ensures Accepts(Local, s) <==> exists at :: 0 <= at && SplitsAt(s, at)
  {
    if s != [] {
      if IsWhitespace(s[0]) {
        forall at | 0 <= at ensures !SplitsAt(s, at) {
          if 0 < at < |s| { assert !IsPlain(s[..at][0]); }
        }
      } else if s[0] == '@' {
        AcceptsDomainStart(s[1..]);
        assert SplitsAt(s, 0) <==> AllPlain(s[1..]) && HasDotFrom(s[1..], 1) by {
          assert AllPlain(s[..0]);
        }
        forall at | 0 < at ensures !SplitsAt(s, at) {
          if at < |s| { assert !IsPlain(s[..at][0]); }
        }
      } else {
        AcceptsLocal(s[1..]);
        if exists at :: 0 <= at && SplitsAt(s, at) {
          var at :| 0 <= at && SplitsAt(s, at);
          SplitsAtShift(s, at - 1);
        }
        if exists at :: 0 <= at && SplitsAt(s[1..], at) {
          var at :| 0 <= at && SplitsAt(s[1..], at);
          SplitsAtShift(s, at);
        }
      }
    }
  }

  lemma AcceptsLocalStart(s: string)
    ensures Accepts(LocalStart, s) <==> exists at :: 1 <= at && SplitsAt(s, at)
  {
    if s != [] {
      if !IsPlain(s[0]) {
        forall at | 1 <= at ensures !SplitsAt(s, at) {
          if at < |s| { assert !IsPlain(s[..at][0]); }
        }
      } else {
        AcceptsLocal(s[1..]);
        if exists at :: 1 <= at && SplitsAt(s, at) {
          var at :| 1 <= at && SplitsAt(s, at);
          SplitsAtShift(s, at - 1);
        }
        if exists at :: 0 <= at && SplitsAt(s[1..], at) {
          var at :| 0 <= at && SplitsAt(s[1..], at);
          SplitsAtShift(s, at);
        }
      }
    }
  }

  lemma PatternGivesSplit(s: string, at: int, dot: int)
    requires 0 < at && at + 1 < dot && dot + 1 < |s|
    requires s[at] == '@' && s[dot] == '.'
    requires AllPlain(s[..at]) && AllPlain(s[at + 1..dot]) && AllPlain(s[dot + 1..])
    ensures SplitsAt(s, at)
  {
    var dom := s[at + 1..];
    forall k | 0 <= k < |dom| ensures IsPlain(dom[k]) {
      if at + 1 + k < dot { assert dom[k] == s[at + 1..dot][k]; }
      else if at + 1 + k > dot { assert dom[k] == s[dot + 1..][at + k - dot]; }
    }
    assert dom[dot - at - 1] == '.';
  }

  lemma SplitGivesPattern(s: string, at: int)
    requires 1 <= at && SplitsAt(s, at)
    ensures MatchesEmailPattern(s)
  {
    var dom := s[at + 1..];
    var d :| 1 <= d && d + 1 < |dom| && dom[d] == '.';
    var dot := at + 1 + d;
    assert s[at + 1..dot] == dom[..d];
    assert s[dot + 1..] == dom[d + 1..];
    assert s[dot] == '.';
  }

  /** The three runs of the pattern, seen from the `@`: the domain is one plain
      run because `.` is itself in `[^\s@]`. */
  lemma PatternSplits(s: string)
    ensures MatchesEmailPattern(s) <==> exists at :: 1 <= at && SplitsAt(s, at)
  {
    if MatchesEmailPattern(s) {
      var at, dot :|
        && 0 < at && at + 1 < dot && dot + 1 < |s|
        && s[at] == '@' && s[dot] == '.'
        && AllPlain(s[..at]) && AllPlain(s[at + 1..dot]) && AllPlain(s[dot + 1..]);
      PatternGivesSplit(s, at, dot);
    }
    if exists at :: 1 <= at && SplitsAt(s, at) {
      var at :| 1 <= at && SplitsAt(s, at);
      SplitGivesPattern(s, at);
    }
  }

  /** The hand-written matcher accepts exactly what the pattern describes. */
  lemma IsEmailCorrect(s: string)
    ensures IsEmail(s) <==> MatchesEmailPattern(s)
  {
    AcceptsLocalStart(s);
    PatternSplits(s);
  }

  /** The pattern as a shape: no whitespace, exactly one `@` with something
      before it, and after it a `.` with a character on each side. */
  lemma EmailShape(s: string)
    ensures MatchesEmailPattern(s) <==>
      && (forall k :: 0 <= k < |s| ==> !IsWhitespace(s[k]))
      && exists at :: 0 < at < |s| && s[at] == '@'
           && (forall k :: 0 <= k < |s| && s[k] == '@' ==> k == at)
           && exists dot :: at + 1 < dot < |s| - 1 && s[dot] == '.'
  {
    PatternSplits(s);
    if MatchesEmailPattern(s) {
      var at :| 1 <= at && SplitsAt(s, at);
      ShapeAt(s, at);
    }
    if && (forall k :: 0 <= k < |s| ==> !IsWhitespace(s[k]))
       && exists at :: 0 < at < |s| && s[at] == '@'
            && (forall k :: 0 <= k < |s| && s[k] == '@' ==> k == at)
            && exists dot :: at + 1 < dot < |s| - 1 && s[dot] == '.'
    {
      var at :| 0 < at < |s| && s[at] == '@'
            && (forall k :: 0 <= k < |s| && s[k] == '@' ==> k == at)
            && exists dot :: at + 1 < dot < |s| - 1 && s[dot] == '.';
      ShapeAt(s, at);
    }
  }

  lemma ShapeAt(s: string, at: int)
    requires 0 < at < |s| && s[at] == '@'
    ensures SplitsAt(s, at) <==>
      && (forall k :: 0 <= k < |s| ==> !IsWhitespace(s[k]))
      && (forall k :: 0 <= k < |s| && s[k] == '@' ==> k == at)
      && exists dot :: at + 1 < dot < |s| - 1 && s[dot] == '.'
  {
    var dom := s[at + 1..];
    if SplitsAt(s, at) {
      forall k | 0 <= k < |s| ensures !IsWhitespace(s[k]) && (s[k] == '@' ==> k == at) {
        if k < at { assert s[k] == s[..at][k]; }
        else if k > at { assert s[k] == dom[k - at - 1]; }
      }
      var d :| 1 <= d && d + 1 < |dom| && dom[d] == '.';
      assert s[at + 1 + d] == '.';
    }
    if && (forall k :: 0 <= k < |s| ==> !IsWhitespace(s[k]))
       && (forall k :: 0 <= k < |s| && s[k] == '@' ==> k == at)
       && exists dot :: at + 1 < dot < |s| - 1 && s[dot] == '.'
    {
      var dot :| at + 1 < dot < |s| - 1 && s[dot] == '.';
      assert dom[dot - at - 1] == '.';
      forall k | 0 <= k < at ensures IsPlain(s[..at][k]) {
        assert s[..at][k] == s[k];
      }
      forall k | 0 <= k < |dom| ensures IsPlain(dom[k]) {
        assert dom[k] == s[at + 1 + k];
      }
    }
  }

  /** The cases the pattern is meant for: a plain address is accepted; an
      empty value, a value without `@`, and a domain without `.` are not. */
  lemma EmailExamples()
    ensures MatchesEmailPattern("a@b.co")
    ensures !MatchesEmailPattern("")
    ensures !MatchesEmailPattern("ab.co")
    ensures !MatchesEmailPattern("a@bco")
  {
    IsEmailCorrect("a@b.co");
    IsEmailCorrect("");
    IsEmailCorrect("ab.co");
    IsEmailCorrect("a@bco");
  }

  /** The validity decision of `validateField` (main.js:252-263) for a field
      whose `type` attribute is `kind`. */
  function FieldValid(value: string, kind: string): (ok: bool)
    ensures ok ==> Trim(value) != []
  {
    var v := Trim(value);
    if v == [] then false
    else if kind == "email" then IsEmail(v)
    else true
  }

  /** A field is valid exactly when its trimmed value is non-empty and, for an
      `email` field, matches the pattern; a blank value is never valid. */
  lemma FieldValidMeaning(value: string, kind: string)
    ensures FieldValid(value, kind) <==>
      Trim(value) != [] && (kind == "email" ==> MatchesEmailPattern(Trim(value)))
    ensures AllWhitespace(value) ==> !FieldValid(value, kind)
  {
    TrimMeaning(value);
    IsEmailCorrect(Trim(value));
  }
}
