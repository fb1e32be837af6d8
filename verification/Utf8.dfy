/**
 UTF-8 validity (RFC 3629, section 4), as the grammar of octet sequences and as the byte automaton that
 recognises it. A `char` above 255 is not an octet and is never accepted.
 */
module Utf8 {

  predicate Tail(c: char) {
    0x80 <= c as int <= 0xBF
  }

  predicate Octets2(s: string) {
    |s| >= 2 && 0xC2 <= s[0] as int <= 0xDF && Tail(s[1])
  }

  predicate Octets3(s: string) {
    && |s| >= 3 && Tail(s[2])
    && match s[0] as int
       case 0xE0 => 0xA0 <= s[1] as int <= 0xBF
       case 0xED => 0x80 <= s[1] as int <= 0x9F
       case lead => 0xE1 <= lead <= 0xEF && Tail(s[1])
  }

  predicate Octets4(s: string) {
    && |s| >= 4 && Tail(s[2]) && Tail(s[3])
    && match s[0] as int
       case 0xF0 => 0x90 <= s[1] as int <= 0xBF
       case 0xF4 => 0x80 <= s[1] as int <= 0x8F
       case lead => 0xF1 <= lead <= 0xF3 && Tail(s[1])
  }

  /** The grammar: a sequence of encoded characters. */
  predicate UtfOctets(s: string)
    decreases |s|
  {
    || s == []
    || (s[0] as int < 0x80 && UtfOctets(s[1..]))
    || (Octets2(s) && UtfOctets(s[2..]))
    || (Octets3(s) && UtfOctets(s[3..]))
    || (Octets4(s) && UtfOctets(s[4..]))
  }

  datatype State = Start | Need1 | Need2 | Need3 | AfterE0 | AfterED | AfterF0 | AfterF4 | Bad

  function Lead(b: int): State {
    if b < 0x80 then Start
    else if b < 0xC2 then Bad
    else if b <= 0xDF then Need1
    else if b == 0xE0 then AfterE0
    else if b == 0xED then AfterED
    else if b <= 0xEF then Need2
    else if b == 0xF0 then AfterF0
    else if b <= 0xF3 then Need3
    else if b == 0xF4 then AfterF4
    else Bad
  }

  function Within(b: int, low: int, high: int, next: State): State {
    if low <= b <= high then next else Bad
  }

  function Step(st: State, c: char): State {
    var b := c as int;
    match st
    case Start => Lead(b)
    case Need1 => Within(b, 0x80, 0xBF, Start)
    case Need2 => Within(b, 0x80, 0xBF, Need1)
    case Need3 => Within(b, 0x80, 0xBF, Need2)
    case AfterE0 => Within(b, 0xA0, 0xBF, Need1)
    case AfterED => Within(b, 0x80, 0x9F, Need1)
    case AfterF0 => Within(b, 0x90, 0xBF, Need2)
    case AfterF4 => Within(b, 0x80, 0x8F, Need2)
    case Bad => Bad
  }

  function Run(st: State, s: string): State
    decreases |s|
  {
    if s == [] then st else Run(Step(st, s[0]), s[1..])
  }

  predicate Valid(s: string) {
    Run(Start, s) == Start
  }

  lemma {:induction false} BadIsFinal(s: string)
    ensures Run(Bad, s) == Bad
  {
    if s != [] { BadIsFinal(s[1..]); }
  }

  lemma {:induction false} RunConcat(st: State, a: string, b: string)
    ensures Run(st, a + b) == Run(Run(st, a), b)
    decreases |a|
  {
    if a == [] {
      assert a + b == b;
    } else {
      assert (a + b)[0] == a[0] && (a + b)[1..] == a[1..] + b;
      RunConcat(Step(st, a[0]), a[1..], b);
    }
  }

  /** In a text that ends well, an ASCII byte stands only where a character starts. */
  lemma AsciiOnlyAtStart(st: State, s: string)
    requires s != [] && s[0] as int < 0x80 && Run(st, s) == Start
    ensures st == Start
  {
    BadIsFinal(s[1..]);
  }

  lemma {:induction false} RunAscii(s: string)
    requires forall i :: 0 <= i < |s| ==> s[i] as int < 0x80
    ensures Run(Start, s) == Start
  {
    if s != [] { RunAscii(s[1..]); }
  }

  /** Bytes that the automaton consumes in a row. */
  lemma RunTwo(st: State, s: string)
    requires |s| >= 2
    ensures Run(st, s) == Run(Step(Step(st, s[0]), s[1]), s[2..])
  {
    assert s[1..][1..] == s[2..];
  }

  /** The automaton accepts exactly the grammar. */
  lemma {:induction false} AutomatonIsGrammar(s: string)
    ensures Valid(s) <==> UtfOctets(s)
    decreases |s|
  {
    if s != [] {
      match Lead(s[0] as int)
      case Start => AutomatonIsGrammar(s[1..]);
      case Bad => BadIsFinal(s[1..]);
      case Need1 =>
        if |s| >= 2 {
          RunTwo(Start, s);
          BadIsFinal(s[2..]);
          AutomatonIsGrammar(s[2..]);
        } else {
          assert s[1..] == [] && Run(Start, s) == Step(Start, s[0]);
        }
      case Need3 => FourOctets(s);
      case AfterF0 => FourOctets(s);
      case AfterF4 => FourOctets(s);
      case _ => ThreeOctets(s);
    }
  }

  lemma {:induction false} ThreeOctets(s: string)
    requires s != [] && Lead(s[0] as int) in {Need2, AfterE0, AfterED}
    ensures Valid(s) <==> UtfOctets(s)
    decreases |s|, 0
  {
    if |s| >= 2 {
      RunTwo(Start, s);
      BadIsFinal(s[2..]);
      if |s| >= 3 {
        assert s[2..][1..] == s[3..];
        BadIsFinal(s[3..]);
        AutomatonIsGrammar(s[3..]);
      } else {
        assert s[2..] == [];
      }
    } else {
      assert s[1..] == [] && Run(Start, s) == Step(Start, s[0]);
    }
  }

  lemma {:induction false} FourOctets(s: string)
    requires s != [] && Lead(s[0] as int) in {Need3, AfterF0, AfterF4}
    ensures Valid(s) <==> UtfOctets(s)
    decreases |s|, 0
  {
    if |s| >= 2 {
      RunTwo(Start, s);
      BadIsFinal(s[2..]);
      if |s| >= 3 {
        assert s[2..][1..] == s[3..];
        BadIsFinal(s[3..]);
        if |s| >= 4 {
          assert s[3..][1..] == s[4..];
          BadIsFinal(s[4..]);
          AutomatonIsGrammar(s[4..]);
        } else {
          assert s[3..] == [];
        }
      } else {
        assert s[2..] == [];
      }
    } else {
      assert s[1..] == [] && Run(Start, s) == Step(Start, s[0]);
    }
  }
}
