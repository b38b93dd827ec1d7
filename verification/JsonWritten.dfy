/** What the writer of voyager/util/json/json.cc writes is such a text, with every character spelled
    as section 7 of RFC 8259 allows. */
module JsonWritten {
  import opened Json
  import opened JsonLayout

  function PieceOf(c: char): Piece {
    if c == '"' || c == '\\' || c == '/' then Letter(c)
    else if c == 8 as char then Letter('b')
    else if c == 12 as char then Letter('f')
    else if c == 10 as char then Letter('n')
    else if c == 13 as char then Letter('r')
    else if c == 9 as char then Letter('t')
    else if c < 0x20 as char then Hex(c as int / 16, c as int % 16, false, false)
    else Plain(c)
  }

  function Pieces(s: string): (ps: seq<Piece>)
    ensures AllProper(ps)
  {
    if s == [] then [] else [PieceOf(s[0])] + Pieces(s[1..])
  }

  function LayoutOf(v: Value, gap: string): Layout
    decreases v, 1
  {
    match v
    case Str(s) => TStr(gap, Pieces(s))
    case Obj(ms) => TObj(gap, LayoutMembers(ms), "  ")
    case Arr(xs) => TArr(gap, LayoutItems(xs), "  ")
  }

  function LayoutMember(m: (string, Value), isLast: bool): Member
    decreases m, 2
  {
    Member(" ", Pieces(m.0), "", LayoutOf(m.1, " "), if isLast then " " else "")
  }

  function LayoutMembers(ms: seq<(string, Value)>): seq<Member>
    decreases ms, 0
  {
    if ms == [] then [] else [LayoutMember(ms[0], |ms| == 1)] + LayoutMembers(ms[1..])
  }

  function LayoutItems(xs: seq<Value>): seq<Item>
    decreases xs, 0
  {
    if xs == [] then [] else [Item(LayoutOf(xs[0], " "), if |xs| == 1 then " " else "")] + LayoutItems(xs[1..])
  }

  /** A written character is a legal spelling of itself, and none below the space is left bare. */
  lemma PieceWritten(c: char)
    ensures Proper(PieceOf(c)) && PieceText(PieceOf(c)) == Escaped(c) && Meant(PieceOf(c)) == [c]
    ensures !PieceOf(c).Dropped? && !PieceOf(c).Loose? && (PieceOf(c).Plain? ==> c >= ' ')
  {
  }

  lemma SpelledCons(p: Piece, ps: seq<Piece>)
    requires Proper(p) && AllProper(ps)
    ensures AllProper([p] + ps)
    ensures Spelled([p] + ps) == PieceText(p) + Spelled(ps) && AllMeant([p] + ps) == Meant(p) + AllMeant(ps)
  {
    assert ([p] + ps)[0] == p && ([p] + ps)[1..] == ps;
    hide PieceText, Meant, Proper;
  }

  lemma {:induction false} PiecesWritten(s: string)
    ensures Spelled(Pieces(s)) == EscapedAll(s) && AllMeant(Pieces(s)) == s
    decreases s
  {
    if s != [] {
      PieceWritten(s[0]);
      PiecesWritten(s[1..]);
      SpelledCons(PieceOf(s[0]), Pieces(s[1..]));
      assert s == [s[0]] + s[1..];
      hide PieceOf, PieceText, Meant, Escaped, Proper, Spelled, AllMeant;
    }
  }

  lemma StringWritten(s: string)
    ensures StringText(Pieces(s)) == Quoted(s)
  {
    PiecesWritten(s);
    hide Spelled, EscapedAll, Pieces;
  }

  /** What Stringify writes for a value is a text of that value. */
  lemma {:induction false} WrittenIsText(v: Value, gap: string)
    requires Blank(gap)
    ensures var l := LayoutOf(v, gap); Legal(l) && Text(l) == gap + Written(v)
    decreases v, 3
  {
    match v {
      case Str(s) => StringWritten(s);
      case Obj(ms) => ObjectWritten(ms, gap);
      case Arr(xs) => ArrayWritten(xs, gap);
    }
  }

  lemma Spaces()
    ensures Blank("") && Blank(" ") && Blank("  ")
  {
  }

  lemma {:induction false} ObjectWritten(ms: seq<(string, Value)>, gap: string)
    requires Blank(gap)
    ensures var l := LayoutOf(Obj(ms), gap); Legal(l) && Text(l) == gap + Written(Obj(ms))
    decreases ms, 2
  {
    Spaces();
    if ms == [] {
      assert Core(LayoutOf(Obj(ms), gap)) == ['{'] + ("  " + ['}']) == Written(Obj(ms));
    } else {
      MembersWritten(ms);
      var w := WrittenMembers(ms);
      hide LayoutMembers, MembersText, WrittenMembers, LegalMembers, Blank;
      assert Written(Obj(ms)) == "{ " + w + " }";
      assert "{ " + w + " }" == ['{'] + (" " + w + [' ', '}']);
      assert LayoutOf(Obj(ms), gap) == TObj(gap, LayoutMembers(ms), "  ");
    }
  }

  lemma {:induction false} MemberWritten(m: (string, Value), isLast: bool)
    ensures var l := LayoutMember(m, isLast); LegalMember(l) && MemberText(l) == " " + WrittenMember(m)
    decreases m, 4
  {
    Spaces();
    WrittenIsText(m.1, " ");
    StringWritten(m.0);
    var q, w := Quoted(m.0), Written(m.1);
    hide Quoted, Written, Text, LayoutOf, Legal, StringText, Pieces, Blank, AllProper;
    assert WrittenMember(m) == q + ": " + w;
    assert " " + (q + ("" + ([':'] + (" " + w)))) == " " + (q + ": " + w);
  }

  /** What follows the last member or element, and what follows the others. */
  lemma LastText(w: string, c: char)
    ensures " " + w + (" " + [c]) == " " + w + [' ', c]
  {
  }

  lemma MoreText(w: string, more: string, c: char)
    ensures " " + w + ("" + ([','] + (" " + more + [' ', c]))) == " " + (w + ", " + more) + [' ', c]
  {
    var tail := " " + more + [' ', c];
    assert "" + ([','] + tail) == [','] + tail;
    assert ", " == [','] + [' '];
    assert w + ", " + more + [' ', c] == w + ([','] + tail);
  }

  lemma {:induction false} MembersWritten(ms: seq<(string, Value)>)
    requires ms != []
    ensures var ls := LayoutMembers(ms);
      ls != [] && LegalMembers(ls) && MembersText(ls) == " " + WrittenMembers(ms) + [' ', '}']
    decreases ms, 1
  {
    var l, rest := LayoutMember(ms[0], |ms| == 1), LayoutMembers(ms[1..]);
    assert LayoutMembers(ms) == [l] + rest;
    MemberWritten(ms[0], |ms| == 1);
    if |ms| == 1 {
      assert rest == [];
      MembersTextOf(l, rest, "");
      LastText(WrittenMember(ms[0]), '}');
    } else {
      MembersWritten(ms[1..]);
      MembersTextOf(l, rest, MembersText(rest));
      MoreText(WrittenMember(ms[0]), WrittenMembers(ms[1..]), '}');
      assert WrittenMembers(ms) == WrittenMember(ms[0]) + ", " + WrittenMembers(ms[1..]);
    }
    assert |ms| == 1 ==> WrittenMembers(ms) == WrittenMember(ms[0]);
    hide *;
  }

  lemma MembersTextOf(l: Member, rest: seq<Member>, more: string)
    requires LegalMember(l) && LegalMembers(rest) && (rest != [] ==> more == MembersText(rest))
    ensures LegalMembers([l] + rest)
    ensures MembersText([l] + rest) == MemberText(l) + (l.after + if rest == [] then ['}'] else [','] + more)
  {
    assert ([l] + rest)[0] == l && ([l] + rest)[1..] == rest;
    hide MemberText, LegalMember;
  }

  lemma {:induction false} ArrayWritten(xs: seq<Value>, gap: string)
    requires Blank(gap)
    ensures var l := LayoutOf(Arr(xs), gap); Legal(l) && Text(l) == gap + Written(Arr(xs))
    decreases xs, 2
  {
    Spaces();
    if xs == [] {
      assert Core(LayoutOf(Arr(xs), gap)) == ['['] + ("  " + [']']) == Written(Arr(xs));
    } else {
      ItemsWritten(xs);
      var w := WrittenItems(xs);
      hide LayoutItems, ItemsText, WrittenItems, LegalItems, Blank;
      assert Written(Arr(xs)) == "[ " + w + " ]";
      assert "[ " + w + " ]" == ['['] + (" " + w + [' ', ']']);
      assert LayoutOf(Arr(xs), gap) == TArr(gap, LayoutItems(xs), "  ");
    }
  }

  function LayoutItem(v: Value, isLast: bool): Item { Item(LayoutOf(v, " "), if isLast then " " else "") }

  lemma {:induction false} ItemWritten(v: Value, isLast: bool)
    ensures var l := LayoutItem(v, isLast); LegalItem(l) && ItemText(l) == " " + Written(v)
    decreases v, 4
  {
    Spaces();
    WrittenIsText(v, " ");
    hide Written, Text, LayoutOf, Legal, Blank;
  }

  lemma {:induction false} ItemsWritten(xs: seq<Value>)
    requires xs != []
    ensures var ls := LayoutItems(xs);
      ls != [] && LegalItems(ls) && ItemsText(ls) == " " + WrittenItems(xs) + [' ', ']']
    decreases xs, 1
  {
    var l, rest := LayoutItem(xs[0], |xs| == 1), LayoutItems(xs[1..]);
    assert LayoutItems(xs) == [l] + rest;
    ItemWritten(xs[0], |xs| == 1);
    if |xs| == 1 {
      assert rest == [];
      ItemsTextOf(l, rest, "");
      LastText(Written(xs[0]), ']');
    } else {
      ItemsWritten(xs[1..]);
      ItemsTextOf(l, rest, ItemsText(rest));
      MoreText(Written(xs[0]), WrittenItems(xs[1..]), ']');
      assert WrittenItems(xs) == Written(xs[0]) + ", " + WrittenItems(xs[1..]);
    }
    assert |xs| == 1 ==> WrittenItems(xs) == Written(xs[0]);
    hide *;
  }

  lemma ItemsTextOf(l: Item, rest: seq<Item>, more: string)
    requires LegalItem(l) && LegalItems(rest) && (rest != [] ==> more == ItemsText(rest))
    ensures LegalItems([l] + rest)
    ensures ItemsText([l] + rest) == ItemText(l) + (l.after + if rest == [] then [']'] else [','] + more)
  {
    assert ([l] + rest)[0] == l && ([l] + rest)[1..] == rest;
    hide ItemText, LegalItem;
  }

  /** And the value of that text is the one that was written. */
  lemma WrittenMeans(v: Value)
    requires WellFormed(v)
    ensures Legal(LayoutOf(v, "")) && Text(LayoutOf(v, "")) == Written(v) && ValueOf(LayoutOf(v, "")) == v
  {
    var l := LayoutOf(v, "");
    Spaces();
    WrittenIsText(v, "");
    assert "" + Written(v) == Written(v);
    hide LayoutOf, Written, Text;
    AnyLayoutIsRead(l, " ");
    ReadWritten(v, " ");
  }
}
