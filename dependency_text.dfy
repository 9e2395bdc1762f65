/** The text box in which a step's dependencies are edited: the list is shown as its entries
    joined by ", ", and typed text is read back by splitting on ',', trimming every piece,
    dropping the pieces that are empty or not numeric and reading the rest as integers.

    A numeric piece here is an optional '+' or '-' followed by one or more decimal digits, and
    its value is an exact integer. JavaScript's `isNaN`/`parseInt` also let through fractions,
    exponents, "0x"/"0b"/"0o" prefixes and "Infinity", and read numbers as doubles; those pieces
    and values are not modelled. Whitespace is space, tab, line feed and carriage return. */
module DependencyText {
  import opened Decimal

  predicate IsSpace(c: char) {
    c == ' ' || c == '\t' || c == '\n' || c == '\r'
  }

  /** The pieces put back together with ',' between them. */
  function Glue(pieces: seq<string>): string
    requires |pieces| >= 1
  {
    if |pieces| == 1 then pieces[0] else pieces[0] + "," + Glue(pieces[1..])
  }

  /** `s.split(',')`: the comma-free pieces that, glued back with commas, give s again. */
  function Split(s: string): (pieces: seq<string>)
    ensures |pieces| >= 1
    ensures forall i :: 0 <= i < |pieces| ==> ',' !in pieces[i]
    ensures Glue(pieces) == s
  {
    if s == [] then [[]]
    else
      var rest := Split(s[1..]);
      if s[0] == ',' then
        assert Glue([[]] + rest) == "," + Glue(rest) by {
          assert ([[]] + rest)[1..] == rest;
        }
        [[]] + rest
      else
        var r := [[s[0]] + rest[0]] + rest[1..];
        assert Glue(r) == [s[0]] + Glue(rest) by {
          if |rest| > 1 {
            assert r[1..] == rest[1..];
          }
        }
        r
  }

  /** `s.trim()` from the front: a suffix of s, all of whose cut-off characters are whitespace. */
  function TrimStart(s: string): (r: string)
    ensures r == [] || !IsSpace(r[0])
  {
    if s != [] && IsSpace(s[0]) then TrimStart(s[1..]) else s
  }

  /** `s.trim()` from the back: a prefix of s, all of whose cut-off characters are whitespace. */
  function TrimEnd(s: string): (r: string)
    ensures r == [] || !IsSpace(r[|r| - 1])
    ensures |r| <= |s| && r == s[..|r|]
  {
    if s != [] && IsSpace(s[|s| - 1]) then TrimEnd(s[..|s| - 1]) else s
  }

  /** `s.trim()`: the piece without its leading and trailing whitespace. */
  function Trim(s: string): (r: string)
    ensures r == [] || (!IsSpace(r[0]) && !IsSpace(r[|r| - 1]))
  {
    TrimEnd(TrimStart(s))
  }

  /** Trimming removes whitespace and nothing else: the trimmed piece is a stretch of the piece
      with only whitespace on either side of it. */
  lemma {:induction false} TrimStartDropsOnlySpace(s: string)
    ensures |TrimStart(s)| <= |s| && TrimStart(s) == s[|s| - |TrimStart(s)|..]
    ensures forall i :: 0 <= i < |s| - |TrimStart(s)| ==> IsSpace(s[i])
  {
    if s != [] && IsSpace(s[0]) {
      TrimStartDropsOnlySpace(s[1..]);
      assert s[1..][|s| - 1 - |TrimStart(s)|..] == s[|s| - |TrimStart(s)|..];
      forall i | 1 <= i < |s| - |TrimStart(s)| ensures IsSpace(s[i]) {
        assert s[i] == s[1..][i - 1];
      }
    }
  }

  lemma {:induction false} TrimEndDropsOnlySpace(s: string)
    ensures forall i :: |TrimEnd(s)| <= i < |s| ==> IsSpace(s[i])
  {
    if s != [] && IsSpace(s[|s| - 1]) {
      TrimEndDropsOnlySpace(s[..|s| - 1]);
      forall i | |TrimEnd(s)| <= i < |s| - 1 ensures IsSpace(s[i]) {
        assert s[i] == s[..|s| - 1][i];
      }
    }
  }

  /** The tokens the filter lets through: an optional sign, then at least one decimal digit. */
  predicate IsNumeral(t: string)
    ensures IsNumeral(t) ==> t != [] && ',' !in t && !IsSpace(t[0]) && !IsSpace(t[|t| - 1])
  {
    || (|t| >= 1 && AllDigits(t))
    || (|t| >= 2 && (t[0] == '+' || t[0] == '-') && AllDigits(t[1..]))
  }

  /** `parseInt(t)` on a numeral: the value of its digits, negative only after a '-'. */
  function NumeralValue(t: string): (r: int)
    requires IsNumeral(t)
    ensures r < 0 ==> t[0] == '-'
    ensures t[0] == '-' ==> r <= 0
    ensures Value(if AllDigits(t) then t else t[1..]) == (if r < 0 then 0 - r else r)
  {
    if AllDigits(t) then Value(t)
    else if t[0] == '-' then 0 - Value(t[1..])
    else Value(t[1..])
  }

  /** What one piece of the text contributes: its value when, trimmed, it is a numeral, else nothing. */
  function PieceValue(piece: string): (r: seq<int>)
    ensures |r| <= 1
    ensures |r| == 1 <==> IsNumeral(Trim(piece))
    ensures IsNumeral(Trim(piece)) ==> r == [NumeralValue(Trim(piece))]
  {
    var t := Trim(piece);
    if IsNumeral(t) then [NumeralValue(t)] else []
  }

  /** `.map(d => d.trim()).filter(d => d && !isNaN(d)).map(d => parseInt(d))` over the pieces. */
  function Numbers(pieces: seq<string>): (r: seq<int>)
    ensures |r| <= |pieces|
  {
    if pieces == [] then [] else PieceValue(pieces[0]) + Numbers(pieces[1..])
  }

  /** The dependency list typed text denotes. Total: any text yields a list. */
  function Parse(text: string): (r: seq<int>)
    ensures |r| <= |Split(text)|
    ensures ',' !in text ==> r == PieceValue(text)
  {
    assert ',' !in text ==> Numbers(Split(text)) == PieceValue(text) by {
      if ',' !in text {
        SplitNoComma(text);
        assert [text][1..] == [];
      }
    }
    Numbers(Split(text))
  }

  /** `dependencies.join(', ')`. */
  function Join(deps: seq<int>): (text: string)
    ensures deps == [] <==> text == []
  {
    if deps == [] then []
    else if |deps| == 1 then ShowInt(deps[0])
    else ShowInt(deps[0]) + ", " + Join(deps[1..])
  }

  // ------------------------------------------------------------ what the parser keeps

  /** The filter keeps the order of the pieces: a text's numbers are those of its parts, in turn. */
  lemma {:induction false} NumbersAppend(p1: seq<string>, p2: seq<string>)
    ensures Numbers(p1 + p2) == Numbers(p1) + Numbers(p2)
  {
    if p1 == [] {
      assert p1 + p2 == p2;
    } else {
      var q := p1 + p2;
      assert q[0] == p1[0];
      assert q[1..] == p1[1..] + p2;
      NumbersAppend(p1[1..], p2);
      assert Numbers(q) == PieceValue(p1[0]) + Numbers(q[1..]);
    }
  }

  /** A piece that is empty or not numeric is dropped without affecting the others. */
  lemma JunkPieceDropped(p1: seq<string>, junk: string, p2: seq<string>)
    requires !IsNumeral(Trim(junk))
    ensures Numbers(p1 + [junk] + p2) == Numbers(p1 + p2)
  {
    assert [junk][1..] == [];
    assert Numbers([junk]) == PieceValue(junk) + Numbers([]);
    assert Numbers([junk]) == [];
    NumbersAppend(p1 + [junk], p2);
    NumbersAppend(p1, [junk]);
    NumbersAppend(p1, p2);
  }

  /** Every numeric piece yields one entry, so equal pieces yield duplicate entries. */
  lemma NumeralPieceKept(p1: seq<string>, piece: string, p2: seq<string>)
    requires IsNumeral(Trim(piece))
    ensures Numbers(p1 + [piece] + p2) == Numbers(p1) + [NumeralValue(Trim(piece))] + Numbers(p2)
  {
    var one := [piece];
    assert one[0] == piece && one[1..] == [];
    assert Numbers(one) == [NumeralValue(Trim(piece))];
    NumbersAppend(p1 + one, p2);
    NumbersAppend(p1, one);
  }

  /** Text whose pieces are all junk (the empty text included) parses to the empty list. */
  lemma {:induction false} AllJunkIsEmpty(pieces: seq<string>)
    requires forall i :: 0 <= i < |pieces| ==> !IsNumeral(Trim(pieces[i]))
    ensures Numbers(pieces) == []
  {
    if pieces != [] {
      AllJunkIsEmpty(pieces[1..]);
    }
  }

  /** Each entry of the parsed list is the value of some numeric piece of the text. */
  lemma {:induction false} NumbersFromPieces(pieces: seq<string>, v: int)
    requires v in Numbers(pieces)
    ensures exists i :: 0 <= i < |pieces| && IsNumeral(Trim(pieces[i])) && NumeralValue(Trim(pieces[i])) == v
  {
    var head, tail := pieces[0], pieces[1..];
    assert Numbers(pieces) == PieceValue(head) + Numbers(tail);
    if v in PieceValue(head) {
      assert IsNumeral(Trim(pieces[0]));
    } else {
      NumbersFromPieces(tail, v);
      var i :| 0 <= i < |tail| && IsNumeral(Trim(tail[i])) && NumeralValue(Trim(tail[i])) == v;
      assert pieces[i + 1] == tail[i];
    }
  }

  // ------------------------------------------------------------ round trip

  lemma {:induction false} SplitAtComma(a: string, b: string)
    requires ',' !in a
    ensures Split(a + "," + b) == [a] + Split(b)
  {
    if a == [] {
      assert a + "," + b == [','] + b;
      assert (a + "," + b)[1..] == b;
    } else {
      assert (a + "," + b)[1..] == a[1..] + "," + b;
      SplitAtComma(a[1..], b);
      assert [a[0]] + a[1..] == a;
    }
  }

  lemma {:induction false} SplitNoComma(a: string)
    requires ',' !in a
    ensures Split(a) == [a]
  {
    if a != [] {
      SplitNoComma(a[1..]);
      assert [a[0]] + a[1..] == a;
    }
  }

  lemma SplitAfterSpace(b: string)
    ensures Split(" " + b) == [" " + Split(b)[0]] + Split(b)[1..]
  {
    assert (" " + b)[1..] == b;
  }

  lemma TrimLeadingSpace(t: string)
    ensures Trim(" " + t) == Trim(t)
  {
    assert (" " + t)[1..] == t;
  }

  lemma NumeralIsItsOwnTrim(t: string)
    requires IsNumeral(t)
    ensures Trim(t) == t
  {
    assert !IsSpace(t[0]) && !IsSpace(t[|t| - 1]);
  }

  lemma ShowIntIsNumeral(n: int)
    ensures IsNumeral(ShowInt(n)) && NumeralValue(ShowInt(n)) == n
    ensures ',' !in ShowInt(n)
  {
    if n < 0 {
      NegativeNumeral(-n);
    } else {
      ValueOfShowNat(n);
      assert !IsDigit(',');
    }
  }

  lemma NegativeNumeral(m: nat)
    requires m > 0
    ensures IsNumeral("-" + ShowNat(m)) && NumeralValue("-" + ShowNat(m)) == 0 - m
    ensures ',' !in "-" + ShowNat(m)
  {
    var digits := ShowNat(m);
    var s := "-" + digits;
    assert s[1..] == digits;
    assert !IsDigit(s[0]);
    assert !IsDigit(',');
    ValueOfShowNat(m);
  }

  lemma PieceValueOfShowInt(n: int)
    ensures PieceValue(ShowInt(n)) == [n]
  {
    ShowIntIsNumeral(n);
    NumeralIsItsOwnTrim(ShowInt(n));
  }

  lemma NumbersCons(p: string, ps: seq<string>)
    ensures Numbers([p] + ps) == PieceValue(p) + Numbers(ps)
  {
    var q := [p] + ps;
    assert q[0] == p && q[1..] == ps;
  }

  /** A space in front of the first piece changes nothing. */
  lemma NumbersSpaced(ps: seq<string>)
    requires |ps| >= 1
    ensures Numbers([" " + ps[0]] + ps[1..]) == Numbers(ps)
  {
    TrimLeadingSpace(ps[0]);
    NumbersCons(" " + ps[0], ps[1..]);
    NumbersCons(ps[0], ps[1..]);
    assert [ps[0]] + ps[1..] == ps;
  }

  /** The pieces of a list's text: the first entry's numeral, then the rest's pieces with a space
      in front of the first of them. */
  lemma SplitJoinCons(deps: seq<int>)
    requires |deps| >= 2
    ensures var ps := Split(Join(deps[1..]));
      Split(Join(deps)) == [ShowInt(deps[0])] + ([" " + ps[0]] + ps[1..])
  {
    var head := ShowInt(deps[0]);
    var tail := Join(deps[1..]);
    JoinCons(deps);
    ShowIntIsNumeral(deps[0]);
    SplitAtComma(head, " " + tail);
    SplitAfterSpace(tail);
  }

  lemma JoinCons(deps: seq<int>)
    requires |deps| >= 2
    ensures Join(deps) == ShowInt(deps[0]) + "," + (" " + Join(deps[1..]))
  {
    var head, tail := ShowInt(deps[0]), Join(deps[1..]);
    assert Join(deps) == head + ", " + tail;
    Regroup(head, tail);
  }

  lemma Regroup(head: string, tail: string)
    ensures head + ", " + tail == head + "," + (" " + tail)
  {
  }

  lemma ParseJoinCons(deps: seq<int>)
    requires |deps| >= 2
    ensures Parse(Join(deps)) == [deps[0]] + Parse(Join(deps[1..]))
  {
    var ps := Split(Join(deps[1..]));
    var spaced := [" " + ps[0]] + ps[1..];
    SplitJoinCons(deps);
    NumbersCons(ShowInt(deps[0]), spaced);
    PieceValueOfShowInt(deps[0]);
    NumbersSpaced(ps);
  }

  /** Showing a dependency list and reading the text back gives the same list: entries,
      order and duplicates. Negative entries survive too. */
  lemma {:induction false} ParseJoin(deps: seq<int>)
    ensures Parse(Join(deps)) == deps
    decreases |deps|
  {
    if deps == [] {
      ParseEmpty();
    } else if |deps| == 1 {
      ParseSingle(deps[0]);
    } else {
      ParseJoinCons(deps);
      ParseJoin(deps[1..]);
      assert [deps[0]] + deps[1..] == deps;
    }
  }

  lemma ParseEmpty()
    ensures Parse([]) == []
  {
    assert Split([]) == [[]];
    assert Numbers([[]]) == PieceValue([]) + Numbers([]);
  }

  lemma ParseSingle(d: int)
    ensures Parse(ShowInt(d)) == [d]
  {
    ShowIntIsNumeral(d);
    SplitNoComma(ShowInt(d));
    PieceValueOfShowInt(d);
    NumbersCons(ShowInt(d), []);
    assert [ShowInt(d)] + [] == [ShowInt(d)];
  }

  /** The text shown for a list determines the list: two lists that look alike are equal. */
  lemma JoinInjective(d1: seq<int>, d2: seq<int>)
    requires Join(d1) == Join(d2)
    ensures d1 == d2
  {
    ParseJoin(d1);
    ParseJoin(d2);
  }
}
