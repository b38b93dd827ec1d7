/** The parser of voyager/util/json/json.cc accepts nothing else: whatever it reads is a text of
    the value that it gives, but for one slip at the very end of the input. */
module JsonAccepted {
  import opened Json
  import opened JsonLayout

  // ----- White space -----

  /** What was skipped is white space. */
  lemma {:induction false} GapOf(s: string) returns (gap: string)
    requires !IsSpace(Skip(s).0)
    ensures Blank(gap) && s == gap + ([Skip(s).0] + Skip(s).1)
    decreases |s|
  {
    assert s != [];
    var rest := s[1..];
    assert s == [s[0]] + rest;
    if IsSpace(s[0]) {
      assert rest != [] by { LoneSpace(s[0]); assert s != [s[0]]; }
      SkipBlank(s[0], rest);
      hide Skip;
      var more := GapOf(rest);
      gap := [s[0]] + more;
      Regroup([s[0]], more, [Skip(s).0] + Skip(s).1);
    } else {
      SkipOver(s[0], rest);
      hide Skip;
      gap := "";
    }
  }

  lemma LoneSpace(c: char)
    requires IsSpace(c)
    ensures Skip([c]) == (c, [])
  {
    assert [c][1..] == [];
    assert SkipFrom(c, []) == (c, []);
  }

  // ----- Strings -----

  /** A string that the input leaves open right after an escaped quote, which the reader takes for
      the closing one. */
  predicate Unclosed(s: string, ps: seq<Piece>) {
    ps != [] && AllProper(ps) && ps[|ps| - 1] == Letter('"') && s == Spelled(ps)
  }

  lemma SpelledOn(p: Piece, ps: seq<Piece>)
    requires Proper(p) && AllProper(ps)
    ensures AllProper([p] + ps)
    ensures Spelled([p] + ps) == PieceText(p) + Spelled(ps) && AllMeant([p] + ps) == Meant(p) + AllMeant(ps)
  {
    assert ([p] + ps)[0] == p && ([p] + ps)[1..] == ps;
    hide PieceText, Meant, Proper;
  }

  /** What is taken in one turn of the scanner, and what it leaves. */
  lemma PieceOf(s: string, acc: string, last: char) returns (p: Piece, t: string, next: char)
    requires s != [] && s[0] != '"' && Scan(s, acc, last).Ok?
    ensures Proper(p) && s == PieceText(p) + t && |t| < |s| && Scan(s, acc, last) == Scan(t, acc + Meant(p), next)
    ensures next == '"' ==> p == Letter('"')
  {
    if s[0] != '\\' {
      p, t, next := Plain(s[0]), s[1..], s[0];
    } else if s[1] == 'u' {
      p, t, next := Loose(s[2..6]), s[6..], 'u';
      assert s == ['\\', 'u'] + s[2..6] + s[6..];
      hide HexOf;
    } else {
      LetterRead(s[1]);
      p, t, next := if Proper(Letter(s[1])) then Letter(s[1]) else Dropped(s[1]), s[2..], s[1];
      assert s == ['\\', s[1]] + s[2..];
      hide HexOf, Unescaped;
    }
  }

  /** What was scanned is a spelling of what was gathered. */
  lemma {:induction false} PiecesOf(s: string, acc: string, last: char) returns (ps: seq<Piece>)
    requires Scan(s, acc, last).Ok?
    ensures AllProper(ps) && Scan(s, acc, last).value == acc + AllMeant(ps)
    ensures var rest := Scan(s, acc, last).rest;
      s == Spelled(ps) + (['"'] + rest) ||
      (rest == [] && s == Spelled(ps) && if ps == [] then last == '"' else ps[|ps| - 1] == Letter('"'))
    decreases |s|
  {
    if s == [] || s[0] == '"' {
      ps := [];
      assert acc + AllMeant(ps) == acc;
      assert s != [] ==> s == Spelled([]) + (['"'] + s[1..]);
    } else {
      var p, t, next := PieceOf(s, acc, last);
      hide *;
      var more := PiecesOf(t, acc + Meant(p), next);
      ps := [p] + more;
      SpelledOn(p, more);
      Regroup(acc, Meant(p), AllMeant(more));
      var rest := Scan(s, acc, last).rest;
      Regroup(PieceText(p), Spelled(more), ['"'] + rest);
      assert more != [] ==> ps[|ps| - 1] == more[|more| - 1];
    }
  }

  lemma StringOf(t: string) returns (ps: seq<Piece>)
    requires Json.GetString(t).Ok?
    ensures AllProper(ps) && Json.GetString(t).value == AllMeant(ps)
    ensures var rest := Json.GetString(t).rest;
      ['"'] + t == StringText(ps) + rest || (rest == [] && Unclosed(t, ps))
  {
    ps := PiecesOf(t, "", 0 as char);
    hide Scan, Spelled, AllMeant;
    assert "" + AllMeant(ps) == AllMeant(ps);
    StringIsRead(ps, Json.GetString(t).rest);
  }

  // ----- Values -----

  /** A lone string that the input leaves open right after an escaped quote. */
  predicate Open(s: string, l: Layout) {
    l.TStr? && Legal(l) && l.pieces != [] && l.pieces[|l.pieces| - 1] == Letter('"') &&
    s == l.gap + (['"'] + Spelled(l.pieces))
  }

  lemma NothingLeft()
    ensures Skip([]) == (' ', [])
  {
  }

  /** What a value was read from: a text of it, or a string left open. */
  lemma {:induction false} TextOf(s: string) returns (l: Layout)
    requires GetValue(s).Ok?
    ensures Legal(l) && ValueOf(l) == GetValue(s).value
    ensures var rest := GetValue(s).rest; (Ends(l, rest) && s == Text(l) + rest) || (rest == [] && Open(s, l))
    decreases |s|, 0
  {
    var (c, t) := Skip(s);
    assert !IsSpace(c);
    var gap := GapOf(s);
    if c == '"' {
      l := StringValueOf(s, gap, t);
    } else if c == '{' {
      l := ObjectOf(s, gap, t);
    } else {
      assert c == '[';
      l := ArrayOf(s, gap, t);
    }
  }

  lemma StringValueOf(s: string, gap: string, t: string) returns (l: Layout)
    requires Blank(gap) && Skip(s) == ('"', t) && s == gap + (['"'] + t) && GetValue(s).Ok?
    ensures Legal(l) && ValueOf(l) == GetValue(s).value
    ensures var rest := GetValue(s).rest; (Ends(l, rest) && s == Text(l) + rest) || (rest == [] && Open(s, l))
  {
    var ps := StringOf(t);
    l := TStr(gap, ps);
    var rest := Json.GetString(t).rest;
    hide Scan, Spelled, AllMeant, SkipFrom;
    Regroup(gap, StringText(ps), rest);
  }

  lemma {:induction false} ObjectOf(s: string, gap: string, t: string) returns (l: Layout)
    requires Blank(gap) && Skip(s) == ('{', t) && s == gap + (['{'] + t) && |t| < |s| && GetValue(s).Ok?
    ensures Legal(l) && ValueOf(l) == GetValue(s).value && Ends(l, GetValue(s).rest) && s == Text(l) + GetValue(s).rest
    decreases |s|, 0, 0
  {
    var ms, end := MembersOf(t, [], true);
    var rest := GetMembers(t, [], true).rest;
    l := TObj(gap, ms, end);
    var inner := if ms == [] then end + ['}'] else MembersText(ms);
    hide GetMembers, MembersText, SkipFrom, MemberMap, LegalMembers;
    assert Core(l) == ['{'] + inner;
    Regroup(['{'], inner, rest);
    Regroup(gap, Core(l), rest);
  }

  lemma {:induction false} ArrayOf(s: string, gap: string, t: string) returns (l: Layout)
    requires Blank(gap) && Skip(s) == ('[', t) && s == gap + (['['] + t) && |t| < |s| && GetValue(s).Ok?
    ensures Legal(l) && ValueOf(l) == GetValue(s).value && Ends(l, GetValue(s).rest) && s == Text(l) + GetValue(s).rest
    decreases |s|, 0, 0
  {
    var rest := Json.GetArray(t).rest;
    var xs, end := ElementsOf(t);
    l := TArr(gap, xs, end);
    var inner := if xs == [] then end + [']'] else ItemsText(xs);
    hide GetItems, ItemsText, SkipFrom, Items, LegalItems, Json.GetArray;
    assert Core(l) == ['['] + inner;
    Regroup(['['], inner, rest);
    Regroup(gap, Core(l), rest);
  }

  lemma {:induction false} ElementsOf(t: string) returns (xs: seq<Item>, end: string)
    requires Json.GetArray(t).Ok?
    ensures LegalItems(xs) && Blank(end) && Json.GetArray(t).value == Arr(Items(xs))
    ensures var rest := Json.GetArray(t).rest;
      t == (if xs == [] then end + [']'] else ItemsText(xs)) + rest && (xs == [] ==> rest != [])
    decreases |t|, 3
  {
    var (c, u) := Skip(t);
    if c == ']' {
      end := GapOf(t);
      xs := [];
      Regroup(end, [']'], u);
    } else {
      end := "";
      assert Json.GetArray(t) == GetItems([c] + u, []);
      PutBack(t);
      xs := ItemsOf(t, []);
      assert [] + Items(xs) == Items(xs);
    }
  }

  lemma PutBack(t: string)
    requires var (c, u) := Skip(t); GetItems([c] + u, []).Ok? && u != []
    ensures t != [] && GetItems(t, []) == GetItems([Skip(t).0] + Skip(t).1, [])
  {
    var (c, u) := Skip(t);
    assert !IsSpace(c);
    var gap := GapOf(t);
    ValueAfter(gap, [c] + u);
    hide GetValue, Skip;
  }

  /** The reader went past a colon: the key was closed. */
  lemma KeyOf(t: string) returns (ps: seq<Piece>, colonGap: string, w: string)
    requires Json.GetString(t).Ok? && Skip(Json.GetString(t).rest).0 == ':'
    ensures AllProper(ps) && AllMeant(ps) == Json.GetString(t).value && Blank(colonGap)
    ensures w == Skip(Json.GetString(t).rest).1
    ensures ['"'] + t == StringText(ps) + (colonGap + ([':'] + w))
  {
    var u := Json.GetString(t).rest;
    ps := StringOf(t);
    NothingLeft();
    colonGap := GapOf(u);
    w := Skip(u).1;
  }

  /** The reader went past the token that follows a value: the value was no string left open. */
  lemma {:induction false} ValueThen(w: string) returns (l: Layout, after: string)
    requires GetValue(w).Ok? && !IsSpace(Skip(GetValue(w).rest).0)
    ensures Legal(l) && ValueOf(l) == GetValue(w).value && Blank(after)
    ensures var (next, y) := Skip(GetValue(w).rest); w == Text(l) + (after + ([next] + y))
    decreases |w|, 1
  {
    var x := GetValue(w).rest;
    l := TextOf(w);
    NothingLeft();
    after := GapOf(x);
  }

  lemma {:induction false} MembersOf(s: string, done: seq<(string, Value)>, first: bool) returns (ms: seq<Member>, end: string)
    requires GetMembers(s, done, first).Ok?
    ensures LegalMembers(ms) && Blank(end) && GetMembers(s, done, first).value == Obj(MemberMap(done, ms))
    ensures var rest := GetMembers(s, done, first).rest; s == (if ms == [] then end + ['}'] else MembersText(ms)) + rest
    ensures ms == [] ==> first
    decreases |s|, 2
  {
    var (c, t) := Skip(s);
    var gap := GapOf(s);
    if c == '}' && first {
      ms, end := [], gap;
      Regroup(gap, ['}'], t);
    } else {
      end := "";
      var ps, colonGap, w := KeyOf(t);
      var l, after := ValueThen(w);
      var m := Member(gap, ps, colonGap, l, after);
      var (next, y) := Skip(GetValue(w).rest);
      var more := Put(done, AllMeant(ps), ValueOf(l));
      MemberFound(s, t, m, w, after + ([next] + y));
      if next == ',' {
        var rest, e := MembersOf(y, more, false);
        ms := [m] + rest;
        MembersFound(m, rest, GetMembers(y, more, false).rest, done);
      } else {
        ms := [m];
        MembersFound(m, [], y, done);
      }
    }
  }

  lemma MemberFound(s: string, t: string, m: Member, w: string, x: string)
    requires LegalMember(m) && s == m.keyGap + (['"'] + t) && w == Text(m.value) + x
    requires ['"'] + t == StringText(m.key) + (m.colonGap + ([':'] + w))
    ensures s == MemberText(m) + x
  {
    hide Text, Spelled, Legal, MemberText;
    MemberShape(m, x);
    StringIsRead(m.key, m.colonGap + ([':'] + w));
  }

  lemma MembersFound(m: Member, more: seq<Member>, rest: string, done: seq<(string, Value)>)
    requires LegalMember(m) && LegalMembers(more)
    ensures var ms := [m] + more;
      LegalMembers(ms) && MemberMap(done, ms) == MemberMap(Put(done, AllMeant(m.key), ValueOf(m.value)), more) &&
      MembersText(ms) + rest ==
        MemberText(m) + (m.after + if more == [] then ['}'] + rest else [','] + (MembersText(more) + rest))
  {
    var ms := [m] + more;
    assert ms[0] == m && ms[1..] == more;
    hide MemberText, LegalMember, AllMeant, ValueOf, Put;
    MembersShape(ms, rest);
  }

  lemma {:induction false} ItemsOf(s: string, done: seq<Value>) returns (xs: seq<Item>)
    requires GetItems(s, done).Ok?
    ensures xs != [] && LegalItems(xs) && GetItems(s, done).value == Arr(done + Items(xs))
    ensures s == ItemsText(xs) + GetItems(s, done).rest
    decreases |s|, 2
  {
    var l, after := ValueThen(s);
    var x := Item(l, after);
    var (next, y) := Skip(GetValue(s).rest);
    if next == ',' {
      var rest := ItemsOf(y, done + [ValueOf(l)]);
      xs := [x] + rest;
      ItemsFound(x, rest, GetItems(y, done + [ValueOf(l)]).rest);
      Regroup(done, [ValueOf(l)], Items(rest));
    } else {
      xs := [x];
      assert [x] + [] == [x];
      ItemsFound(x, [], y);
      assert [ValueOf(l)] + [] == [ValueOf(l)];
    }
  }

  lemma ItemsFound(x: Item, more: seq<Item>, rest: string)
    requires LegalItem(x) && LegalItems(more)
    ensures var xs := [x] + more;
      LegalItems(xs) && Items(xs) == [ValueOf(x.value)] + Items(more) &&
      ItemsText(xs) + rest ==
        Text(x.value) + (x.after + if more == [] then [']'] + rest else [','] + (ItemsText(more) + rest))
  {
    var xs := [x] + more;
    assert xs[0] == x && xs[1..] == more;
    hide LegalItem, ValueOf, Text;
    ItemsShape(xs, rest);
  }

  /** On every input: the parser reads v and leaves rest if and only if the input is a text of v
      followed by rest, or ends in a lone string v that is left open. */
  lemma ReadsExactly(s: string, v: Value, rest: string)
    ensures GetValue(s) == Ok(v, rest) <==>
      exists l :: Legal(l) && ValueOf(l) == v && ((Ends(l, rest) && s == Text(l) + rest) || (rest == [] && Open(s, l)))
  {
    if GetValue(s) == Ok(v, rest) {
      var l := TextOf(s);
    }
    if l :| Legal(l) && ValueOf(l) == v && ((Ends(l, rest) && s == Text(l) + rest) || (rest == [] && Open(s, l))) {
      if Ends(l, rest) && s == Text(l) + rest {
        AnyLayoutIsRead(l, rest);
      } else {
        OpenIsRead(s, l);
      }
    }
  }

  lemma {:induction false} ScanOpen(ps: seq<Piece>, acc: string, last: char)
    requires AllProper(ps) && (if ps == [] then last == '"' else ps[|ps| - 1] == Letter('"'))
    ensures Scan(Spelled(ps), acc, last) == Ok(acc + AllMeant(ps), [])
    decreases |ps|
  {
    if ps == [] {
      assert acc + AllMeant(ps) == acc;
    } else if |ps| == 1 {
      assert ps == [Letter('"')];
      assert PieceText(ps[0]) + [] == ['\\', '"'] && ['\\', '"'][2..] == [];
      assert Spelled(ps) == ['\\', '"'] && AllMeant(ps) == ['"'];
    } else {
      SpelledOn(ps[0], ps[1..]);
      assert [ps[0]] + ps[1..] == ps;
      SpelledSome(ps[1..]);
      hide *;
      ScanPiece(ps[0], Spelled(ps[1..]), acc, last);
      ScanOpen(ps[1..], acc + Meant(ps[0]), last);
      Regroup(acc, Meant(ps[0]), AllMeant(ps[1..]));
    }
  }

  lemma SpelledSome(ps: seq<Piece>)
    requires AllProper(ps) && ps != []
    ensures Spelled(ps) != []
  {
  }

  lemma OpenIsRead(s: string, l: Layout)
    requires Open(s, l)
    ensures GetValue(s) == Ok(ValueOf(l), [])
  {
    ScanOpen(l.pieces, "", 0 as char);
    assert "" + AllMeant(l.pieces) == AllMeant(l.pieces);
    hide SkipFrom, Scan, Spelled, AllMeant;
    TokenAfter(l.gap, '"', Spelled(l.pieces));
  }
}
