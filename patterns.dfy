/**
 * The fixed regular expressions the engine tests lines against, as a small
 * datatype with a recogniser. Only the shapes the engine uses are needed:
 * anchored prefixes (`^OK\r`, `^SBDRING`, `^\+AREG`), unanchored literals
 * (`ERROR`, `READY`, `\+SBDIX`), the signal notification `\+CIEV:0,[^0]`
 * and `.*`, which matches every line.
 */
module Patterns {
  import opened Wrappers

  datatype Pattern =
    | OkLine        // /^OK\r/
    | ErrorText     // /ERROR/
    | Ready         // /READY/
    | SbdRing       // /^SBDRING/
    | Areg          // /^\+AREG/
    | SbdixLine     // /\+SBDIX/
    | CievAcquired  // /\+CIEV:0,[^0]/
    | All           // /.*/

  const CievPrefix: string := "+CIEV:0,"

  /** `pat` occurs in s (a regular expression made of one literal, unanchored). */
  predicate Contains(s: string, pat: string)
    decreases |s|
  {
    pat <= s || (s != [] && Contains(s[1..], pat))
  }

  /** A signal notification whose first field is not `0` starts somewhere in s. */
  predicate HasAcquiredSignal(s: string)
    decreases |s|
  {
    (CievPrefix <= s && |s| > |CievPrefix| && s[|CievPrefix|] != '0')
    || (s != [] && HasAcquiredSignal(s[1..]))
  }

  /** `pattern.test(line)` */
  predicate Matches(p: Pattern, line: string) {
    match p
    case OkLine => "OK\r" <= line
    case ErrorText => Contains(line, "ERROR")
    case Ready => Contains(line, "READY")
    case SbdRing => "SBDRING" <= line
    case Areg => "+AREG" <= line
    case SbdixLine => Contains(line, "+SBDIX")
    case CievAcquired => HasAcquiredSignal(line)
    case All => true
  }

  /** The literal `pat` stands in s at index i. */
  ghost predicate OccursAt(s: string, pat: string, i: int) {
    0 <= i && i + |pat| <= |s| && s[i..i + |pat|] == pat
  }

  lemma {:induction false} ContainsShift(s: string, pat: string, i: int)
    requires s != [] && 1 <= i && OccursAt(s, pat, i)
    ensures OccursAt(s[1..], pat, i - 1)
  {
    assert s[1..][i - 1..i - 1 + |pat|] == s[i..i + |pat|];
  }

  /** `Contains` agrees with the textbook definition of a substring, in both directions. */
  lemma {:induction false} ContainsIff(s: string, pat: string)
    ensures Contains(s, pat) <==> exists i :: OccursAt(s, pat, i)
    decreases |s|
  {
    if pat <= s {
      assert OccursAt(s, pat, 0);
    } else if s == [] {
    } else {
      ContainsIff(s[1..], pat);
      if Contains(s[1..], pat) {
        var j :| OccursAt(s[1..], pat, j);
        assert s[j + 1..j + 1 + |pat|] == s[1..][j..j + |pat|];
        assert OccursAt(s, pat, j + 1);
      } else {
        forall i | OccursAt(s, pat, i) ensures false {
          if i != 0 {
            ContainsShift(s, pat, i);
          }
        }
      }
    }
  }

  /** A signal notification counts as "acquired" exactly when the character after `+CIEV:0,` is present and not `0`. */
  lemma {:induction false} AcquiredSignalIff(s: string)
    ensures HasAcquiredSignal(s) <==>
      exists i :: OccursAt(s, CievPrefix, i) && i + |CievPrefix| < |s| && s[i + |CievPrefix|] != '0'
    decreases |s|
  {
    var n := |CievPrefix|;
    if CievPrefix <= s && |s| > n && s[n] != '0' {
      assert OccursAt(s, CievPrefix, 0);
    } else if s == [] {
    } else {
      AcquiredSignalIff(s[1..]);
      if HasAcquiredSignal(s[1..]) {
        var j :| OccursAt(s[1..], CievPrefix, j) && j + n < |s[1..]| && s[1..][j + n] != '0';
        assert s[j + 1..j + 1 + n] == s[1..][j..j + n];
        assert OccursAt(s, CievPrefix, j + 1);
      } else {
        forall i | OccursAt(s, CievPrefix, i) && i + n < |s| && s[i + n] != '0' ensures false {
          if i != 0 {
            ContainsShift(s, CievPrefix, i);
          }
        }
      }
    }
  }

  lemma {:induction false} ShortNotContains(s: string, pat: string)
    requires |s| < |pat|
    ensures !Contains(s, pat)
    decreases |s|
  {
    if s != [] {
      ShortNotContains(s[1..], pat);
    }
  }

  /** The modem's final `OK` line ends a command and is neither an error nor unsolicited. */
  lemma OkLineIsPlain()
    ensures Matches(OkLine, "OK\r") && !Matches(ErrorText, "OK\r")
    ensures !Matches(SbdRing, "OK\r") && !Matches(Areg, "OK\r")
  {
    ShortNotContains("OK\r", "ERROR");
  }

  /** The unsolicited result codes, tried in this order; the first that matches takes the line. */
  datatype Unsolicited = RingAlert | RegistrationResult

  function Route(line: string): (r: Option<Unsolicited>)
    ensures r == Some(RingAlert) <==> Matches(SbdRing, line)
    ensures r == Some(RegistrationResult) <==> !Matches(SbdRing, line) && Matches(Areg, line)
    ensures r.None? <==> !Matches(SbdRing, line) && !Matches(Areg, line)
  {
    if Matches(SbdRing, line) then Some(RingAlert)
    else if Matches(Areg, line) then Some(RegistrationResult)
    else None
  }
}
