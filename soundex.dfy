/** The Soundex example (TBA/algorithms/examples/xsoundex.py): a reducer
    that turns a stream of characters into code digits, and the standard
    five-character code built from it with xcat, xtail, xfill and xhead. */
module Soundex {

  import opened BasicSpec
  import opened Base

  /** An entry of the classification table: a character that is not a
      key is a separator, one marked 'S' is skipped, and any other value is
      the character's code digit. */
  datatype Entry = Separator | Skip | Digit(d: char)

  /** The classification table, upper- and lower-case letters alike. */
  function Classify(c: char): Entry {
    match c
    case 'H' | 'W' | 'h' | 'w' => Skip
    case 'B' | 'F' | 'P' | 'V' | 'b' | 'f' | 'p' | 'v' => Digit('1')
    case 'C' | 'G' | 'J' | 'K' | 'Q' | 'S' | 'X' | 'Z' => Digit('2')
    case 'c' | 'g' | 'j' | 'k' | 'q' | 's' | 'x' | 'z' => Digit('2')
    case 'D' | 'T' | 'd' | 't' => Digit('3')
    case 'L' | 'l' => Digit('4')
    case 'M' | 'N' | 'm' | 'n' => Digit('5')
    case 'R' | 'r' => Digit('6')
    case _ => Separator
  }

  /** The "last code" a fresh reducer starts from, and the one a separator
      resets it to. It is no code digit, so the next digit always differs. */
  const Sentinel: char := 'X'

  predicate IsCodeDigit(c: char) {
    '1' <= c <= '6'
  }

  predicate IsUpper(c: char) {
    'A' <= c <= 'Z'
  }

  predicate IsLower(c: char) {
    'a' <= c <= 'z'
  }

  /** ASCII upper-casing; every other character is left alone. */
  function Upper(c: char): (u: char)
    ensures IsUpper(u) <==> IsUpper(c) || IsLower(c)
    ensures !IsLower(c) ==> u == c
  {
    if IsLower(c) then (c as int - 32) as char else c
  }

  /** Every digit in the table is a code digit, only letters are keys, and
      the table does not depend on case: an upper-case letter has the entry
      of its lower-case form and the other way round. */
  lemma TableShape(c: char)
    ensures Classify(c).Digit? ==> IsCodeDigit(Classify(c).d)
    ensures !Classify(c).Separator? ==> IsUpper(c) || IsLower(c)
    ensures IsUpper(c) ==> Classify(c) == Classify((c as int + 32) as char)
    ensures IsLower(c) ==> Classify(c) == Classify((c as int - 32) as char)
  {
  }

  /* ---------- xunorthodox_soundex ---------- */

  /** What xunorthodox_soundex produces from `s` when the last code it
      produced is `last`: a separator resets `last` to the sentinel, a
      skipped character changes nothing, and a code digit is produced
      when it differs from `last` and then becomes `last`. */
  function Reduce(last: char, s: seq<char>): seq<char>
    decreases |s|
  {
    if s == [] then []
    else
      match Classify(s[0])
      case Separator => Reduce(Sentinel, s[1..])
      case Skip => Reduce(last, s[1..])
      case Digit(code) =>
        if code != last then [code] + Reduce(code, s[1..]) else Reduce(last, s[1..])
  }

  /** The code the reducer holds after reading `s` from `last`: a separator
      sets it to the sentinel, a skipped character keeps it, and a code digit
      becomes it. */
  function LastCode(last: char, s: seq<char>): char
    decreases |s|
  {
    if s == [] then last
    else
      match Classify(s[0])
      case Separator => LastCode(Sentinel, s[1..])
      case Skip => LastCode(last, s[1..])
      case Digit(code) => LastCode(code, s[1..])
  }

  /** Reducing a concatenation reduces the second part from the code held
      after the first: the reducer carries nothing else between them. */
  lemma {:induction false} ReduceAppend(last: char, a: seq<char>, b: seq<char>)
    ensures Reduce(last, a + b) == Reduce(last, a) + Reduce(LastCode(last, a), b)
    decreases |a|
  {
    if a == [] {
      assert a + b == b;
    } else {
      assert (a + b)[0] == a[0] && (a + b)[1..] == a[1..] + b;
      match Classify(a[0])
      case Separator => ReduceAppend(Sentinel, a[1..], b);
      case Skip => ReduceAppend(last, a[1..], b);
      case Digit(code) => ReduceAppend(code, a[1..], b);
    }
  }

  /** A skipped character (H or W) is ignored wherever it stands: it emits
      nothing and leaves the last code as it was. */
  lemma ReduceSkip(last: char, a: seq<char>, h: char, b: seq<char>)
    requires Classify(h) == Skip
    ensures Reduce(last, a + [h] + b) == Reduce(last, a + b)
  {
    assert a + [h] + b == a + ([h] + b);
    assert ([h] + b)[0] == h && ([h] + b)[1..] == b;
    ReduceAppend(last, a, [h] + b);
    ReduceAppend(last, a, b);
  }

  /** A character with code digit `d` emits `d` exactly when `d` differs
      from the last code held, and in both cases `d` becomes the last code
      for what follows. */
  lemma ReduceEmits(last: char, a: seq<char>, c: char, d: char, b: seq<char>)
    requires Classify(c) == Digit(d)
    ensures d != LastCode(last, a) ==> Reduce(last, a + [c] + b) == Reduce(last, a) + [d] + Reduce(d, b)
    ensures d == LastCode(last, a) ==> Reduce(last, a + [c] + b) == Reduce(last, a) + Reduce(d, b)
  {
    assert a + [c] + b == a + ([c] + b);
    assert ([c] + b)[0] == c && ([c] + b)[1..] == b;
    ReduceAppend(last, a, [c] + b);
  }

  /** The reducer yields at most one digit per input character. */
  lemma {:induction false} ReduceAtMostOnePerChar(last: char, s: seq<char>)
    ensures |Reduce(last, s)| <= |s|
    decreases |s|
  {
    if s != [] {
      match Classify(s[0])
      case Separator => ReduceAtMostOnePerChar(Sentinel, s[1..]);
      case Skip => ReduceAtMostOnePerChar(last, s[1..]);
      case Digit(code) =>
        ReduceAtMostOnePerChar(code, s[1..]);
        ReduceAtMostOnePerChar(last, s[1..]);
    }
  }

  /** The reducer produces code digits only, never the skip mark, the
      sentinel or a separator. */
  lemma {:induction false} ReduceDigits(last: char, s: seq<char>)
    ensures forall i :: 0 <= i < |Reduce(last, s)| ==> IsCodeDigit(Reduce(last, s)[i])
    decreases |s|
  {
    if s != [] {
      TableShape(s[0]);
      match Classify(s[0])
      case Separator => ReduceDigits(Sentinel, s[1..]);
      case Skip => ReduceDigits(last, s[1..]);
      case Digit(code) =>
        ReduceDigits(code, s[1..]);
        ReduceDigits(last, s[1..]);
    }
  }

  /** A separator cuts the input in two independent halves: what follows
      it is reduced as if from a fresh reducer. */
  lemma {:induction false} ReduceSplitsAtSeparator(last: char, a: seq<char>, c: char, b: seq<char>)
    requires Classify(c) == Separator
    ensures Reduce(last, a + [c] + b) == Reduce(last, a) + Reduce(Sentinel, b)
    decreases |a|
  {
    if a == [] {
      assert a + [c] + b == [c] + b;
    } else {
      assert (a + [c] + b)[1..] == a[1..] + [c] + b;
      match Classify(a[0])
      case Separator => ReduceSplitsAtSeparator(Sentinel, a[1..], c, b);
      case Skip => ReduceSplitsAtSeparator(last, a[1..], c, b);
      case Digit(code) =>
        ReduceSplitsAtSeparator(code, a[1..], c, b);
        ReduceSplitsAtSeparator(last, a[1..], c, b);
    }
  }

  /** Without a separator in the input, no digit repeats its predecessor,
      and the first differs from `last`. */
  lemma {:induction false} ReduceNoRepeat(last: char, s: seq<char>)
    requires forall i :: 0 <= i < |s| ==> Classify(s[i]) != Separator
    ensures Reduce(last, s) != [] ==> Reduce(last, s)[0] != last
    ensures forall i :: 0 <= i < |Reduce(last, s)| - 1 ==> Reduce(last, s)[i] != Reduce(last, s)[i + 1]
    decreases |s|
  {
    if s != [] {
      assert Classify(s[0]) != Separator;
      match Classify(s[0])
      case Skip => ReduceNoRepeat(last, s[1..]);
      case Digit(code) =>
        if code != last {
          ReduceNoRepeat(code, s[1..]);
          var t := Reduce(code, s[1..]);
          assert Reduce(last, s) == [code] + t;
          forall i | 0 <= i < |t|
            ensures ([code] + t)[i] != ([code] + t)[i + 1]
          {
            if i > 0 {
              assert ([code] + t)[i] == t[i - 1] && ([code] + t)[i + 1] == t[i];
            }
          }
        } else {
          ReduceNoRepeat(last, s[1..]);
        }
    }
  }

  /** A prefix one element longer starts with the same element, and its
      tail is the prefix of the tail. */
  lemma PrefixTail(s: seq<char>, k: nat)
    requires k < |s|
    ensures s[..k + 1] != [] && s[..k + 1][0] == s[0] && s[..k + 1][1..] == s[1..][..k]
  {
  }

  /** When the first digit produced equals `last`, the input holds a
      separator before which nothing was produced. */
  lemma {:induction false} ReduceFirstRepeat(last: char, s: seq<char>)
    requires Reduce(last, s) != [] && Reduce(last, s)[0] == last
    ensures exists k :: 0 <= k < |s| && Classify(s[k]) == Separator && Reduce(last, s[..k]) == []
    decreases |s|
  {
    match Classify(s[0])
    case Separator =>
      assert s[..0] == [];
    case Skip =>
      ReduceFirstRepeat(last, s[1..]);
      var k :| 0 <= k < |s[1..]| && Classify(s[1..][k]) == Separator && Reduce(last, s[1..][..k]) == [];
      PrefixTail(s, k);
      assert Reduce(last, s[..k + 1]) == Reduce(last, s[1..][..k]);
    case Digit(code) =>
      assert code == last;
      ReduceFirstRepeat(last, s[1..]);
      var k :| 0 <= k < |s[1..]| && Classify(s[1..][k]) == Separator && Reduce(last, s[1..][..k]) == [];
      PrefixTail(s, k);
      assert Reduce(last, s[..k + 1]) == Reduce(last, s[1..][..k]);
  }

  /** Two equal neighbouring digits in the output have a separator between
      their sources: the input holds a separator at a point where exactly
      the first of the two has been produced. */
  lemma {:induction false} ReduceRepeatNeedsSeparator(last: char, s: seq<char>, i: nat)
    requires i + 1 < |Reduce(last, s)| && Reduce(last, s)[i] == Reduce(last, s)[i + 1]
    ensures exists k :: 0 <= k < |s| && Classify(s[k]) == Separator && |Reduce(last, s[..k])| == i + 1
    decreases |s|
  {
    match Classify(s[0])
    case Separator =>
      ReduceRepeatNeedsSeparator(Sentinel, s[1..], i);
      var k :| 0 <= k < |s[1..]| && Classify(s[1..][k]) == Separator && |Reduce(Sentinel, s[1..][..k])| == i + 1;
      PrefixTail(s, k);
      assert Reduce(last, s[..k + 1]) == Reduce(Sentinel, s[1..][..k]);
    case Skip =>
      ReduceRepeatNeedsSeparator(last, s[1..], i);
      var k :| 0 <= k < |s[1..]| && Classify(s[1..][k]) == Separator && |Reduce(last, s[1..][..k])| == i + 1;
      PrefixTail(s, k);
      assert Reduce(last, s[..k + 1]) == Reduce(last, s[1..][..k]);
    case Digit(code) =>
      if code == last {
        ReduceRepeatNeedsSeparator(last, s[1..], i);
        var k :| 0 <= k < |s[1..]| && Classify(s[1..][k]) == Separator && |Reduce(last, s[1..][..k])| == i + 1;
        PrefixTail(s, k);
        assert Reduce(last, s[..k + 1]) == Reduce(last, s[1..][..k]);
      } else {
        var t := Reduce(code, s[1..]);
        assert Reduce(last, s) == [code] + t;
        if i == 0 {
          ReduceFirstRepeat(code, s[1..]);
          var k :| 0 <= k < |s[1..]| && Classify(s[1..][k]) == Separator && Reduce(code, s[1..][..k]) == [];
          PrefixTail(s, k);
          assert Reduce(last, s[..k + 1]) == [code] + Reduce(code, s[1..][..k]);
        } else {
          assert t[i - 1] == t[i];
          ReduceRepeatNeedsSeparator(code, s[1..], i - 1);
          var k :| 0 <= k < |s[1..]| && Classify(s[1..][k]) == Separator && |Reduce(code, s[1..][..k])| == i;
          PrefixTail(s, k);
          assert Reduce(last, s[..k + 1]) == [code] + Reduce(code, s[1..][..k]);
        }
      }
  }

  /** BB gives 1; the skipped H does not separate (BHB gives 1); the
      separator A does (BAB gives 11). */
  lemma SkipAndSeparator()
    ensures Reduce(Sentinel, "BB") == "1"
    ensures Reduce(Sentinel, "BHB") == "1"
    ensures Reduce(Sentinel, "BAB") == "11"
  {
    assert "BB"[1..] == "B" && "BHB"[1..] == "HB" && "HB"[1..] == "B";
    assert "BAB"[1..] == "AB" && "AB"[1..] == "B";
  }

  /** xunorthodox_soundex over an input: `last` is the last code produced
      since the most recent separator. */
  class ReducerStream {
    const input: Source<char>
    var last: char

    ghost predicate Valid()
      reads this, input
    {
      input.Valid()
    }

    ghost function Output(): seq<char>
      reads this, input
      requires Valid()
    {
      Reduce(last, input.Output())
    }

    constructor (s: seq<char>)
      ensures Valid() && fresh(input) && last == Sentinel
      ensures Output() == Reduce(Sentinel, s)
    {
      input := new Source(s);
      last := Sentinel;
    }

    /** Pulls characters until one yields a digit different from the last
        one produced; exhaustion of the input ends the stream. */
    method Next() returns (r: Pull<char>)
      requires Valid()
      modifies this, input
      ensures Valid() && Pulled(old(Output()), r, Output())
      ensures r.Some? ==> last == r.value
    {
      while true
        invariant Valid() && Output() == old(Output())
        decreases |input.Output()|
      {
        var p := input.Next();
        if p.Exhausted? {
          return Exhausted;
        }
        match Classify(p.value)
        case Separator =>
          last := Sentinel;
        case Skip =>
        case Digit(code) =>
          if code != last {
            last := code;
            return Some(code);
          }
      }
    }
  }

  /* ---------- xsoundex ---------- */

  /** What xsoundex produces: nothing for an empty input; otherwise the
      reducer over the whole input, less its first digit when the first
      character has a code digit (xtail by 1), after the upper-cased first
      character and a dash (xcat), filled with '0' and cut to five
      characters (xfill, then xhead). */
  function Code(s: seq<char>): (r: seq<char>)
    ensures r == [] <==> s == []
    ensures s != [] ==> |r| == 5
  {
    if s == [] then []
    else
      var first := s[0];
      var digits := Reduce(Sentinel, Concat([[first], s[1..]]));
      var rest := if Classify(first).Digit? then Drop(digits, 1) else digits;
      Take(Fill(Concat([[Upper(first), '-'], rest]), 5, '0'), 5)
  }

  /** The code after the dash: `digits` cut or filled with '0' to three. */
  function Pad3(digits: seq<char>): (r: seq<char>)
    ensures |r| == 3
  {
    Fill(digits, 3, '0')
  }

  /** The last code a reducer holds after the first character `c`. */
  function LastAfter(c: char): char {
    if Classify(c).Digit? then Classify(c).d else Sentinel
  }

  /** The code in closed form: the upper-cased first character, a dash,
      and three digits that reduce the rest of the input, with the first
      character's own code digit, if it has one, standing as the last code
      produced (so an identical code right after it is not repeated). */
  lemma CodeClosedForm(s: seq<char>)
    requires s != []
    ensures Code(s) == [Upper(s[0]), '-'] + Pad3(Reduce(LastAfter(s[0]), s[1..]))
  {
    var first := s[0];
    ConcatPair([first], s[1..]);
    assert [first] + s[1..] == s;
    var rest := Reduce(LastAfter(first), s[1..]);
    FirstDigitDropped(s);
    ConcatPair([Upper(first), '-'], rest);
    FillAfterPrefix(Upper(first), '-', rest);
  }

  lemma ConcatPair<T>(a: seq<T>, b: seq<T>)
    ensures Concat([a, b]) == a + b
  {
    assert [a, b][1..] == [b];
    assert [b][1..] == [];
    assert Concat([b]) == b + Concat([]);
    assert b + [] == b;
  }

  /** Dropping one digit (only) when the first character has a code digit
      leaves the reduction of the rest from that digit. */
  lemma FirstDigitDropped(s: seq<char>)
    requires s != []
    ensures (if Classify(s[0]).Digit? then Drop(Reduce(Sentinel, s), 1) else Reduce(Sentinel, s))
      == Reduce(LastAfter(s[0]), s[1..])
  {
    var rest := Reduce(LastAfter(s[0]), s[1..]);
    if Classify(s[0]).Digit? {
      assert Reduce(Sentinel, s) == [Classify(s[0]).d] + rest;
      assert ([Classify(s[0]).d] + rest)[1..] == rest;
    }
  }

  /** Five characters, filled with '0', after a two-character prefix are
      the prefix and three characters filled the same way. */
  lemma FillAfterPrefix(x: char, y: char, rest: seq<char>)
    ensures Take(Fill([x, y] + rest, 5, '0'), 5) == [x, y] + Pad3(rest)
  {
    var full := Fill([x, y] + rest, 5, '0');
    var p := Pad3(rest);
    TakePrefix(full, 5);
    assert full[..5] == full;
    forall i | 0 <= i < 5
      ensures full[i] == ([x, y] + p)[i]
    {
      if 2 <= i < |rest| + 2 {
        assert ([x, y] + rest)[i] == rest[i - 2];
      }
    }
  }

  /** xsoundex produces nothing from an empty input and exactly five
      characters otherwise: the upper-cased first character, a dash and
      three characters from '0' to '6'. */
  lemma CodeShape(s: seq<char>)
    ensures Code(s) == [] <==> s == []
    ensures s != [] ==> |Code(s)| == 5 && Code(s)[0] == Upper(s[0]) && Code(s)[1] == '-'
    ensures s != [] ==> forall i :: 2 <= i < 5 ==> Code(s)[i] == '0' || IsCodeDigit(Code(s)[i])
  {
    if s != [] {
      CodeClosedForm(s);
      ReduceDigits(LastAfter(s[0]), s[1..]);
      var p := Pad3(Reduce(LastAfter(s[0]), s[1..]));
      assert forall i :: 0 <= i < 3 ==> p[i] == '0' || IsCodeDigit(p[i]);
      assert forall i :: 2 <= i < 5 ==> Code(s)[i] == p[i - 2];
    }
  }

  /** CodeClosedForm with the pieces of the input named. */
  lemma CodeFromParts(s: seq<char>, u: char, last: char, tail: seq<char>, d: seq<char>)
    requires s != [] && Upper(s[0]) == u && LastAfter(s[0]) == last && s[1..] == tail
    requires Reduce(last, tail) == d
    ensures Code(s) == [u, '-'] + Pad3(d)
  {
    CodeClosedForm(s);
  }

  /** A name that starts with an upper-case separator (a vowel) keeps it,
      and a three-digit reduction of the rest is the code unchanged. */
  lemma CodeAfterSeparator(c: char, tail: seq<char>, d: seq<char>)
    requires Classify(c) == Separator && !IsLower(c)
    requires Reduce(Sentinel, tail) == d && |d| == 3
    ensures Code([c] + tail) == [c, '-'] + d
  {
    assert ([c] + tail)[1..] == tail;
    CodeFromParts([c] + tail, c, Sentinel, tail, d);
    assert Pad3(d) == d;
  }

  /** xsoundex: `me` is the pipeline, built on the first pull from the
      first character and the rest of the input, and pulled from then on. */
  class SoundexStream {
    const input: Source<char>
    var me: Source?<char>

    ghost predicate Valid()
      reads this, input, me
    {
      input.Valid() && (me != null ==> me.Valid() && me != input)
    }

    ghost function Output(): seq<char>
      reads this, input, me
      requires Valid()
    {
      if me == null then Code(input.Output()) else me.Output()
    }

    constructor (s: seq<char>)
      ensures Valid() && fresh(input) && me == null
      ensures Output() == Code(s)
    {
      input := new Source(s);
      me := null;
    }

    /** The first pull takes the first character (an empty input ends the
        stream before any pipeline exists) and builds the pipeline over it
        and the rest of the input; every pull is then served by it. */
    method Next() returns (r: Pull<char>)
      requires Valid()
      modifies this, input, me
      ensures Valid() && Pulled(old(Output()), r, Output())
    {
      if me == null {
        var p := input.Next();
        if p.Exhausted? {
          return Exhausted;
        }
        var rest := Collect(input);
        me := new Source(Code([p.value] + rest));
      }
      r := me.Next();
    }
  }
}
