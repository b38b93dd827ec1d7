/** The parser of voyager/util/json/json.cc on every text of strings, objects and arrays: any white
    space between tokens, any spelling of a character, members in any order and repeated. */
module JsonLayout {
  import opened Json

  // ----- Texts -----

  /** A piece of a string: a character as itself, by a letter, or by a number below 256. The reader
      also takes a backslash before any other character, which it drops with it, and passes over
      characters that are no digits. */
  datatype Piece =
    | Plain(c: char)
    | Letter(c: char)
    | Hex(hi: nat, lo: nat, hiUpper: bool, loUpper: bool)
    | Dropped(c: char)
    | Loose(digits: string)

  datatype Layout =
    | TStr(gap: string, pieces: seq<Piece>)
    | TObj(gap: string, members: seq<Member>, end: string)
    | TArr(gap: string, items: seq<Item>, end: string)

  datatype Member = Member(keyGap: string, key: seq<Piece>, colonGap: string, value: Layout, after: string)

  datatype Item = Item(value: Layout, after: string)

  function Digit(n: nat, upper: bool): char
    requires n < 16
  {
    if upper then "0123456789ABCDEF"[n] else "0123456789abcdef"[n]
  }

  predicate Blank(s: string) { forall c :: c in s ==> c in " \t\r\n" }

  predicate Proper(p: Piece) {
    match p
    case Plain(c) => c != '"' && c != '\\'
    case Letter(c) => c in "\"\\/bfnrt"
    case Hex(hi, lo, _, _) => hi < 16 && lo < 16
    case Dropped(c) => c !in "\"\\/bfnrtu"
    case Loose(digits) => |digits| == 4 && HexOf(digits, 0) <= 0xff
  }

  predicate AllProper(ps: seq<Piece>) { forall p :: p in ps ==> Proper(p) }

  function PieceText(p: Piece): string
    requires Proper(p)
  {
    match p
    case Plain(c) => [c]
    case Letter(c) => ['\\', c]
    case Hex(hi, lo, hiUpper, loUpper) => ['\\', 'u', '0', '0', Digit(hi, hiUpper), Digit(lo, loUpper)]
    case Dropped(c) => ['\\', c]
    case Loose(digits) => ['\\', 'u'] + digits
  }

  /** What a letter stands for, by section 7 of RFC 8259. */
  function LetterMeant(c: char): char {
    if c == 'b' then 8 as char
    else if c == 'f' then 12 as char
    else if c == 'n' then 10 as char
    else if c == 'r' then 13 as char
    else if c == 't' then 9 as char
    else c
  }

  function Meant(p: Piece): string
    requires Proper(p)
  {
    match p
    case Plain(c) => [c]
    case Letter(c) => [LetterMeant(c)]
    case Hex(hi, lo, _, _) => [(16 * hi + lo) as char]
    case Dropped(c) => []
    case Loose(digits) => [HexOf(digits, 0) as char]
  }

  function Spelled(ps: seq<Piece>): string
    requires AllProper(ps)
  {
    if ps == [] then [] else PieceText(ps[0]) + Spelled(ps[1..])
  }

  function AllMeant(ps: seq<Piece>): string
    requires AllProper(ps)
  {
    if ps == [] then [] else Meant(ps[0]) + AllMeant(ps[1..])
  }

  predicate Legal(l: Layout)
    decreases l, 1
  {
    match l
    case TStr(gap, ps) => Blank(gap) && AllProper(ps)
    case TObj(gap, ms, end) => Blank(gap) && Blank(end) && LegalMembers(ms)
    case TArr(gap, xs, end) => Blank(gap) && Blank(end) && LegalItems(xs)
  }

  predicate LegalMember(m: Member)
    decreases m, 2
  {
    Blank(m.keyGap) && AllProper(m.key) && Blank(m.colonGap) && Legal(m.value) && Blank(m.after)
  }

  predicate LegalMembers(ms: seq<Member>)
    decreases ms, 0
  {
    ms == [] || (LegalMember(ms[0]) && LegalMembers(ms[1..]))
  }

  predicate LegalItem(x: Item)
    decreases x, 2
  {
    Legal(x.value) && Blank(x.after)
  }

  predicate LegalItems(xs: seq<Item>)
    decreases xs, 0
  {
    xs == [] || (LegalItem(xs[0]) && LegalItems(xs[1..]))
  }

  function StringText(ps: seq<Piece>): string
    requires AllProper(ps)
  {
    ['"'] + (Spelled(ps) + ['"'])
  }

  /** A value without the space before it. */
  function Core(l: Layout): (t: string)
    requires Legal(l)
    ensures t != [] && (t[0] == '"' || t[0] == '{' || t[0] == '[')
    decreases l, 1
  {
    match l
    case TStr(_, ps) => StringText(ps)
    case TObj(_, ms, end) => ['{'] + (if ms == [] then end + ['}'] else MembersText(ms))
    case TArr(_, xs, end) => ['['] + (if xs == [] then end + [']'] else ItemsText(xs))
  }

  function Text(l: Layout): string
    requires Legal(l)
    decreases l, 2
  {
    l.gap + Core(l)
  }

  function MemberText(m: Member): string
    requires LegalMember(m)
    decreases m, 3
  {
    m.keyGap + (StringText(m.key) + (m.colonGap + ([':'] + Text(m.value))))
  }

  /** Members with commas between and the brace behind. */
  function MembersText(ms: seq<Member>): string
    requires ms != [] && LegalMembers(ms)
    decreases ms, 0
  {
    MemberText(ms[0]) + (ms[0].after + if |ms| == 1 then ['}'] else [','] + MembersText(ms[1..]))
  }

  function ItemText(x: Item): string
    requires LegalItem(x)
    decreases x, 3
  {
    Text(x.value)
  }

  function ItemsText(xs: seq<Item>): string
    requires xs != [] && LegalItems(xs)
    decreases xs, 0
  {
    ItemText(xs[0]) + (xs[0].after + if |xs| == 1 then [']'] else [','] + ItemsText(xs[1..]))
  }

  // ----- Their values -----

  function ValueOf(l: Layout): Value
    requires Legal(l)
    decreases l, 1
  {
    match l
    case TStr(_, ps) => Str(AllMeant(ps))
    case TObj(_, ms, _) => Obj(MemberMap([], ms))
    case TArr(_, xs, _) => Arr(Items(xs))
  }

  function MemberValue(m: Member): Value
    requires LegalMember(m)
    decreases m, 2
  {
    ValueOf(m.value)
  }

  /** A later member of the same key takes the place of an earlier one. */
  function MemberMap(done: seq<(string, Value)>, ms: seq<Member>): seq<(string, Value)>
    requires LegalMembers(ms)
    decreases ms, 0
  {
    if ms == [] then done
    else
      assert LegalMember(ms[0]);
      MemberMap(Put(done, AllMeant(ms[0].key), MemberValue(ms[0])), ms[1..])
  }

  function ItemValue(x: Item): Value
    requires LegalItem(x)
    decreases x, 2
  {
    ValueOf(x.value)
  }

  function Items(xs: seq<Item>): seq<Value>
    requires LegalItems(xs)
    decreases xs, 0
  {
    if xs == [] then [] else [ItemValue(xs[0])] + Items(xs[1..])
  }

  // ----- White space -----

  lemma SkipBlank(c: char, s: string)
    requires c in " \t\r\n" && s != []
    ensures Skip([c] + s) == Skip(s)
  {
    assert ([c] + s)[0] == c && ([c] + s)[1..] == s;
    assert SkipFrom(' ', [c] + s) == SkipFrom(c, s);
    assert SkipFrom(c, s) == SkipFrom(s[0], s[1..]) == SkipFrom(' ', s);
  }

  lemma {:induction false} SkipGap(gap: string, s: string)
    requires Blank(gap) && s != []
    ensures Skip(gap + s) == Skip(s)
    decreases |gap|
  {
    hide Skip;
    if gap == [] {
      assert gap + s == s;
    } else {
      assert gap[0] in gap && forall c :: c in gap[1..] ==> c in gap;
      assert gap + s == [gap[0]] + (gap[1..] + s);
      SkipGap(gap[1..], s);
      SkipBlank(gap[0], gap[1..] + s);
    }
  }

  /** The next token comes after the gap. */
  lemma TokenAfter(gap: string, c: char, s: string)
    requires Blank(gap) && !IsSpace(c)
    ensures Skip(gap + ([c] + s)) == (c, s)
  {
    hide Skip;
    SkipGap(gap, [c] + s);
    SkipOver(c, s);
  }

  lemma ValueAfter(gap: string, s: string)
    requires Blank(gap) && s != []
    ensures GetValue(gap + s) == GetValue(s)
  {
    hide SkipFrom, GetMembers, GetArray, GetString;
    SkipGap(gap, s);
  }

  // ----- Strings -----

  lemma DigitValue(n: nat, upper: bool)
    requires n < 16
    ensures HexValue(Digit(n, upper)) == n
  {
  }

  /** A number in either case of its digits. */
  lemma HexRead(hi: nat, lo: nat, hiUpper: bool, loUpper: bool)
    requires hi < 16 && lo < 16
    ensures HexOf(['0', '0', Digit(hi, hiUpper), Digit(lo, loUpper)], 0) == 16 * hi + lo
  {
    var h, l := Digit(hi, hiUpper), Digit(lo, loUpper);
    DigitValue(hi, hiUpper);
    DigitValue(lo, loUpper);
    assert HexValue('0') == 0;
    assert HexOf([], 16 * hi + lo) == 16 * hi + lo;
    hide HexOf, HexValue, Digit;
    HexStep(l, [], hi);
    HexStep(h, [l], 0);
    HexStep('0', [h, l], 0);
    HexStep('0', ['0', h, l], 0);
    FourDigits(h, l);
  }

  lemma FourDigits(h: char, l: char)
    ensures ['0'] + ['0', h, l] == ['0', '0', h, l] && ['0'] + [h, l] == ['0', h, l]
    ensures [h] + [l] == [h, l] && [l] + [] == [l]
  {
  }

  lemma LetterRead(c: char)
    ensures Proper(Letter(c)) ==> c != 'u' && Unescaped(c) == [LetterMeant(c)]
    ensures Proper(Dropped(c)) ==> c != 'u' && Unescaped(c) == []
    ensures Proper(Letter(c)) || Proper(Dropped(c)) || c == 'u'
  {
  }

  lemma ScanPiece(p: Piece, t: string, acc: string, last: char)
    requires Proper(p) && t != []
    ensures Scan(PieceText(p) + t, acc, last) == Scan(t, acc + Meant(p), last)
  {
    var e, s := PieceText(p), PieceText(p) + t;
    match p {
      case Plain(c) =>
        assert s[0] == c && s[1..] == t;
        LastDoesNotMatter(t, acc + [c], last, c);
      case Letter(c) =>
        assert s[0] == '\\' && s[1] == c && s[2..] == t;
        LetterRead(c);
        hide Unescaped;
        LastDoesNotMatter(t, acc + Meant(p), last, c);
      case Hex(hi, lo, hiUpper, loUpper) =>
        hide HexOf, Digit;
        assert s[0] == '\\' && s[1] == 'u' && s[2..6] == e[2..] && s[6..] == t;
        HexRead(hi, lo, hiUpper, loUpper);
        LastDoesNotMatter(t, acc + Meant(p), last, 'u');
      case Dropped(c) =>
        assert s[0] == '\\' && s[1] == c && s[2..] == t;
        LetterRead(c);
        hide Unescaped;
        LastDoesNotMatter(t, acc + Meant(p), last, c);
      case Loose(digits) =>
        hide HexOf;
        assert s[0] == '\\' && s[1] == 'u' && s[2..6] == digits && s[6..] == t;
        LastDoesNotMatter(t, acc + Meant(p), last, 'u');
    }
  }

  lemma SpelledText(ps: seq<Piece>, rest: string)
    requires ps != [] && AllProper(ps)
    ensures AllProper(ps[1..]) && Proper(ps[0])
    ensures Spelled(ps) + (['"'] + rest) == PieceText(ps[0]) + (Spelled(ps[1..]) + (['"'] + rest))
  {
    hide PieceText, Proper;
  }

  lemma Regroup<T>(a: seq<T>, b: seq<T>, c: seq<T>)
    ensures a + b + c == a + (b + c)
  {
  }

  lemma ScanNothing(rest: string, acc: string, last: char)
    ensures Scan(Spelled([]) + (['"'] + rest), acc, last) == Ok(acc + AllMeant([]), rest)
  {
    assert Spelled([]) + (['"'] + rest) == ['"'] + rest && acc + AllMeant([]) == acc;
  }

  lemma {:induction false} ScanSpelled(ps: seq<Piece>, rest: string, acc: string, last: char)
    requires AllProper(ps)
    ensures Scan(Spelled(ps) + (['"'] + rest), acc, last) == Ok(acc + AllMeant(ps), rest)
    decreases ps
  {
    if ps == [] {
      ScanNothing(rest, acc, last);
    } else {
      SpelledText(ps, rest);
      assert AllMeant(ps) == Meant(ps[0]) + AllMeant(ps[1..]);
      hide *;
      ScanPiece(ps[0], Spelled(ps[1..]) + (['"'] + rest), acc, last);
      ScanSpelled(ps[1..], rest, acc + Meant(ps[0]), last);
      Regroup(acc, Meant(ps[0]), AllMeant(ps[1..]));
    }
  }

  /** A string in any spelling is read as what it means. */
  lemma StringIsRead(ps: seq<Piece>, rest: string)
    requires AllProper(ps)
    ensures StringText(ps) + rest == ['"'] + (Spelled(ps) + (['"'] + rest))
    ensures Json.GetString(Spelled(ps) + (['"'] + rest)) == Ok(AllMeant(ps), rest)
  {
    hide Scan, Spelled, AllMeant;
    ScanSpelled(ps, rest, "", 0 as char);
    assert "" + AllMeant(ps) == AllMeant(ps);
  }

  // ----- Values -----

  /** Only an empty array cannot be read at the very end of the input. */
  predicate Ends(l: Layout, rest: string) { l.TArr? && l.items == [] ==> rest != [] }

  /** Any text of a value is read as that value, with what follows left over. */
  lemma {:induction false} AnyLayoutIsRead(l: Layout, rest: string)
    requires Legal(l) && Ends(l, rest)
    ensures GetValue(Text(l) + rest) == Ok(ValueOf(l), rest)
    decreases l, 3
  {
    match l {
      case TStr(gap, ps) => StringValueIsRead(l, rest);
      case TObj(gap, ms, end) => ObjectIsRead(l, ms, rest);
      case TArr(gap, xs, end) => ArrayIsRead(l, xs, rest);
    }
    assert Text(l) + rest == l.gap + (Core(l) + rest);
    hide Core, GetValue, ValueOf;
    ValueAfter(l.gap, Core(l) + rest);
  }

  lemma StringValueIsRead(l: Layout, rest: string)
    requires l.TStr? && Legal(l)
    ensures GetValue(Core(l) + rest) == Ok(ValueOf(l), rest)
  {
    StringIsRead(l.pieces, rest);
    hide SkipFrom, Spelled, Scan, AllMeant;
    SkipOver('"', Spelled(l.pieces) + (['"'] + rest));
  }

  lemma {:induction false} ObjectIsRead(l: Layout, ms: seq<Member>, rest: string)
    requires l.TObj? && Legal(l) && l.members == ms
    ensures GetValue(Core(l) + rest) == Ok(ValueOf(l), rest)
    decreases ms, 2
  {
    var t := (if ms == [] then l.end + ['}'] else MembersText(ms)) + rest;
    assert Core(l) + rest == ['{'] + t;
    if ms == [] {
      assert t == l.end + (['}'] + rest);
      hide SkipFrom;
      TokenAfter(l.end, '}', rest);
    } else {
      MembersAreRead([], ms, true, rest);
    }
    hide SkipFrom, GetMembers, MembersText, MemberMap, Core;
    SkipOver('{', t);
  }

  /** What follows the colon of a member, and what comes before it. */
  lemma MemberShape(m: Member, x: string)
    requires LegalMember(m)
    ensures MemberText(m) + x ==
      m.keyGap + (['"'] + (Spelled(m.key) + (['"'] + (m.colonGap + ([':'] + (Text(m.value) + x))))))
  {
    hide Spelled, Core, Legal;
    var v := [':'] + Text(m.value);
    assert v + x == [':'] + (Text(m.value) + x);
    hide Text;
    assert m.colonGap + v + x == m.colonGap + (v + x);
    assert StringText(m.key) + (m.colonGap + v) + x == StringText(m.key) + (m.colonGap + v + x);
    StringIsRead(m.key, m.colonGap + v + x);
  }

  lemma MemberIsRead(m: Member, x: string, ms: seq<(string, Value)>, first: bool)
    requires LegalMember(m) && GetValue(Text(m.value) + x) == Ok(MemberValue(m), x)
    ensures GetMembers(MemberText(m) + x, ms, first) == AfterMember(x, Put(ms, AllMeant(m.key), MemberValue(m)))
  {
    var w := Text(m.value) + x;
    var u := m.colonGap + ([':'] + w);
    var q := Spelled(m.key) + (['"'] + u);
    MemberShape(m, x);
    StringIsRead(m.key, u);
    hide SkipFrom, Spelled, Scan, Text, GetValue, Put, MemberText, StringText, MemberValue, AllMeant, Legal;
    TokenAfter(m.keyGap, '"', q);
    TokenAfter(m.colonGap, ':', w);
    hide Skip, GetString;
  }

  lemma {:induction false} MemberValueIsRead(m: Member, x: string)
    requires LegalMember(m) && x != []
    ensures GetValue(Text(m.value) + x) == Ok(MemberValue(m), x)
    decreases m, 4
  {
    hide GetValue, Text;
    AnyLayoutIsRead(m.value, x);
  }

  /** What follows the first of these members. */
  function Behind(ms: seq<Member>, rest: string): (x: string)
    requires ms != [] && LegalMembers(ms)
    ensures x != []
  {
    ms[0].after + if |ms| == 1 then ['}'] + rest else [','] + (MembersText(ms[1..]) + rest)
  }

  lemma MembersShape(ms: seq<Member>, rest: string)
    requires ms != [] && LegalMembers(ms)
    ensures MembersText(ms) + rest == MemberText(ms[0]) + Behind(ms, rest)
  {
    hide MemberText, LegalMember;
    var tail := if |ms| == 1 then ['}'] else [','] + MembersText(ms[1..]);
    assert ms[0].after + tail + rest == ms[0].after + (tail + rest);
    assert MemberText(ms[0]) + (ms[0].after + tail) + rest == MemberText(ms[0]) + (ms[0].after + tail + rest);
    assert |ms| > 1 ==> tail + rest == [','] + (MembersText(ms[1..]) + rest);
  }

  lemma BehindIsRead(ms: seq<Member>, rest: string, done: seq<(string, Value)>)
    requires ms != [] && LegalMembers(ms)
    ensures AfterMember(Behind(ms, rest), done) ==
      if |ms| == 1 then Ok(Obj(done), rest) else GetMembers(MembersText(ms[1..]) + rest, done, false)
  {
    assert Blank(ms[0].after);
    hide GetMembers, Skip, MembersText;
    if |ms| == 1 {
      TokenAfter(ms[0].after, '}', rest);
    } else {
      TokenAfter(ms[0].after, ',', MembersText(ms[1..]) + rest);
    }
  }

  lemma {:induction false} MembersAreRead(done: seq<(string, Value)>, ms: seq<Member>, first: bool, rest: string)
    requires ms != [] && LegalMembers(ms)
    ensures GetMembers(MembersText(ms) + rest, done, first) == Ok(Obj(MemberMap(done, ms)), rest)
    decreases ms, 1
  {
    assert LegalMember(ms[0]) && LegalMembers(ms[1..]);
    var more := Put(done, AllMeant(ms[0].key), MemberValue(ms[0]));
    assert MemberMap(done, ms) == MemberMap(more, ms[1..]);
    assert |ms| == 1 ==> MemberMap(more, ms[1..]) == more;
    hide *;
    var x := Behind(ms, rest);
    MembersShape(ms, rest);
    MemberValueIsRead(ms[0], x);
    MemberIsRead(ms[0], x, done, first);
    BehindIsRead(ms, rest, more);
    if |ms| > 1 { MembersAreRead(more, ms[1..], false, rest); }
  }

  /** What follows the first of these elements. */
  function ItemBehind(xs: seq<Item>, rest: string): (x: string)
    requires xs != [] && LegalItems(xs)
    ensures x != []
  {
    xs[0].after + if |xs| == 1 then [']'] + rest else [','] + (ItemsText(xs[1..]) + rest)
  }

  lemma ItemsShape(xs: seq<Item>, rest: string)
    requires xs != [] && LegalItems(xs)
    ensures ItemsText(xs) + rest == ItemText(xs[0]) + ItemBehind(xs, rest)
  {
    hide ItemText, LegalItem;
    var tail := if |xs| == 1 then [']'] else [','] + ItemsText(xs[1..]);
    assert xs[0].after + tail + rest == xs[0].after + (tail + rest);
    assert ItemText(xs[0]) + (xs[0].after + tail) + rest == ItemText(xs[0]) + (xs[0].after + tail + rest);
    assert |xs| > 1 ==> tail + rest == [','] + (ItemsText(xs[1..]) + rest);
  }

  lemma ItemBehindIsRead(xs: seq<Item>, rest: string, done: seq<Value>)
    requires xs != [] && LegalItems(xs)
    ensures AfterItem(ItemBehind(xs, rest), done) ==
      if |xs| == 1 then Ok(Arr(done), rest) else GetItems(ItemsText(xs[1..]) + rest, done)
  {
    assert Blank(xs[0].after);
    hide GetItems, Skip, ItemsText;
    if |xs| == 1 {
      TokenAfter(xs[0].after, ']', rest);
    } else {
      TokenAfter(xs[0].after, ',', ItemsText(xs[1..]) + rest);
    }
  }

  lemma {:induction false} ItemIsRead(x: Item, rest: string)
    requires LegalItem(x) && rest != []
    ensures GetValue(ItemText(x) + rest) == Ok(ItemValue(x), rest)
    decreases x, 4
  {
    hide GetValue, Text;
    AnyLayoutIsRead(x.value, rest);
  }

  lemma AfterOneItem(s: string, v: Value, x: string, done: seq<Value>)
    requires s != [] && GetValue(s) == Ok(v, x)
    ensures GetItems(s, done) == AfterItem(x, done + [v])
  {
    hide GetValue, Skip;
  }

  lemma {:induction false} ItemsAreRead(done: seq<Value>, xs: seq<Item>, rest: string)
    requires xs != [] && LegalItems(xs)
    ensures GetItems(ItemsText(xs) + rest, done) == Ok(Arr(done + Items(xs)), rest)
    decreases xs, 1
  {
    assert LegalItem(xs[0]) && LegalItems(xs[1..]);
    var v := ItemValue(xs[0]);
    assert Items(xs) == [v] + Items(xs[1..]);
    assert |xs| == 1 ==> Items(xs[1..]) == [];
    hide *;
    var x := ItemBehind(xs, rest);
    ItemsShape(xs, rest);
    ItemIsRead(xs[0], x);
    AfterOneItem(ItemText(xs[0]) + x, v, x, done);
    ItemBehindIsRead(xs, rest, done + [v]);
    assert done + [v] + Items(xs[1..]) == done + ([v] + Items(xs[1..]));
    if |xs| > 1 {
      ItemsAreRead(done + [v], xs[1..], rest);
    } else {
      assert done + [v] + [] == done + [v];
    }
  }

  lemma {:induction false} ArrayIsRead(l: Layout, xs: seq<Item>, rest: string)
    requires l.TArr? && Legal(l) && l.items == xs && Ends(l, rest)
    ensures GetValue(Core(l) + rest) == Ok(ValueOf(l), rest)
    decreases xs, 2
  {
    var t := (if xs == [] then l.end + [']'] else ItemsText(xs)) + rest;
    assert Core(l) + rest == ['['] + t;
    if xs == [] {
      assert t == l.end + ([']'] + rest);
      hide SkipFrom;
      TokenAfter(l.end, ']', rest);
    } else {
      ItemsAreRead([], xs, rest);
      assert [] + Items(xs) == Items(xs);
      FirstItem(xs, rest);
    }
    hide SkipFrom, GetItems, ItemsText, Items, Core;
    SkipOver('[', t);
  }

  /** The reader skips the space before the first element and puts its first character back. */
  lemma FirstItem(xs: seq<Item>, rest: string)
    requires xs != [] && LegalItems(xs)
    ensures var s := ItemsText(xs) + rest;
      var (c, t) := Skip(s);
      t != [] && c != ']' && GetItems([c] + t, []) == GetItems(s, [])
  {
    var l, x := xs[0].value, ItemBehind(xs, rest);
    var core := Core(l);
    assert LegalItem(xs[0]);
    ItemsShape(xs, rest);
    assert ItemText(xs[0]) == l.gap + core;
    Regroup(l.gap, core, x);
    var c, t := core[0], core[1..] + x;
    assert core == [c] + core[1..];
    Regroup([c], core[1..], x);
    assert Blank(l.gap);
    hide SkipFrom, ItemsText, ItemText, Core, ItemBehind, GetValue;
    TokenAfter(l.gap, c, t);
    ValueAfter(l.gap, core + x);
    hide Skip;
  }

  /** Json::Parse reads any text of a value as that value, which has each key once and in order. */
  lemma AnyTextParses(l: Layout, rest: string)
    requires Legal(l) && Ends(l, rest)
    ensures Parse(Text(l) + rest) == Ok(ValueOf(l), rest) && WellFormed(ValueOf(l))
  {
    AnyLayoutIsRead(l, rest);
    hide Text, ValueOf;
    ParsedIsWellFormed(Text(l) + rest);
  }

  /** A lone empty array is refused, whatever the space around its brackets. */
  lemma LoneEmptyArray(l: Layout)
    requires Legal(l) && l.TArr? && l.items == []
    ensures Parse(Text(l)) == Corrupt
  {
    var t := l.end + [']'];
    assert Core(l) == ['['] + t && [']'] + [] == [']'];
    assert Text(l) == l.gap + (['['] + t) && l.end + ([']'] + []) == t;
    hide SkipFrom, Text, Core;
    TokenAfter(l.gap, '[', t);
    TokenAfter(l.end, ']', []);
    assert Skip(Text(l)) == ('[', t);
    assert Skip(t) == (']', []);
    assert GetArray(t) == Corrupt;
  }
}
