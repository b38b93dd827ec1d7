/** The writer and the parser of voyager/util/json/json.cc for strings, objects and arrays. */
module Json {
  // ----- Values -----

  /** Members are in the order of their keys, as std::map keeps them. */
  datatype Value = Str(s: string) | Obj(members: seq<(string, Value)>) | Arr(items: seq<Value>)

  predicate Less(a: string, b: string)
    decreases a
  {
    if a == [] then b != []
    else b != [] && (a[0] < b[0] || (a[0] == b[0] && Less(a[1..], b[1..])))
  }

  ghost predicate Sorted(ms: seq<(string, Value)>) {
    forall i, j :: 0 <= i < j < |ms| ==> Less(ms[i].0, ms[j].0)
  }

  ghost predicate WellFormed(v: Value) {
    match v
    case Str(_) => true
    case Obj(ms) => Sorted(ms) && forall i :: 0 <= i < |ms| ==> WellFormed(ms[i].1)
    case Arr(xs) => forall i :: 0 <= i < |xs| ==> WellFormed(xs[i])
  }

  /** value_[key] = v */
  function Put(ms: seq<(string, Value)>, key: string, v: Value): seq<(string, Value)>
    decreases ms
  {
    if ms == [] then [(key, v)]
    else if ms[0].0 == key then [(key, v)] + ms[1..]
    else if Less(key, ms[0].0) then [(key, v)] + ms
    else [ms[0]] + Put(ms[1..], key, v)
  }

  lemma {:induction false} LessIsStrict(a: string, b: string)
    requires Less(a, b)
    ensures a != b && !Less(b, a)
    decreases a
  {
    if a != [] && a[0] == b[0] { LessIsStrict(a[1..], b[1..]); }
  }

  lemma {:induction false} PutLast(ms: seq<(string, Value)>, key: string, v: Value)
    requires forall i :: 0 <= i < |ms| ==> Less(ms[i].0, key)
    ensures Put(ms, key, v) == ms + [(key, v)]
    decreases ms
  {
    if ms != [] {
      LessIsStrict(ms[0].0, key);
      PutLast(ms[1..], key, v);
    }
  }

  // ----- What is written -----

  function HexDigit(n: nat): char
    requires n < 16
  {
    "0123456789abcdef"[n]
  }

  function Escaped(c: char): string {
    if c == '"' then ['\\', '"']
    else if c == '\\' then ['\\', '\\']
    else if c == '/' then ['\\', '/']
    else if c == 8 as char then ['\\', 'b']
    else if c == 12 as char then ['\\', 'f']
    else if c == '\n' then ['\\', 'n']
    else if c == '\r' then ['\\', 'r']
    else if c == '\t' then ['\\', 't']
    else if c < 0x20 as char then ['\\', 'u', '0', '0', HexDigit(c as int / 16), HexDigit(c as int % 16)]
    else [c]
  }

  function EscapedAll(s: string): string
    decreases s
  {
    if s == [] then [] else Escaped(s[0]) + EscapedAll(s[1..])
  }

  function Quoted(s: string): string { ['"'] + EscapedAll(s) + ['"'] }

  function Written(v: Value): string
    decreases v, 1
  {
    match v
    case Str(s) => Quoted(s)
    case Obj(ms) => "{ " + WrittenMembers(ms) + " }"
    case Arr(xs) => "[ " + WrittenItems(xs) + " ]"
  }

  function WrittenMember(m: (string, Value)): string
    decreases m, 2
  {
    Quoted(m.0) + ": " + Written(m.1)
  }

  function WrittenMembers(ms: seq<(string, Value)>): string
    decreases ms, 0
  {
    if ms == [] then ""
    else if |ms| == 1 then WrittenMember(ms[0])
    else WrittenMember(ms[0]) + ", " + WrittenMembers(ms[1..])
  }

  function WrittenItems(xs: seq<Value>): string
    decreases xs, 0
  {
    if xs == [] then ""
    else if |xs| == 1 then Written(xs[0])
    else Written(xs[0]) + ", " + WrittenItems(xs[1..])
  }

  // ----- What is read -----

  /** Corrupt is Status::Corruption; Tripped an assertion of the reader, which is read past its
      end; Unmodelled a number, a boolean or a null. */
  datatype Parsed<+T> = Ok(value: T, rest: string) | Corrupt | Tripped | Unmodelled

  predicate IsSpace(c: char) { c == ' ' || c == '\t' || c == '\r' || c == '\n' }

  /** SkipWhiteSpace, having read c last. */
  function SkipFrom(c: char, s: string): (r: (char, string))
    ensures |r.1| <= |s| && (IsSpace(c) && !IsSpace(r.0) ==> |r.1| < |s|)
    ensures IsSpace(r.0) ==> r.1 == []
    decreases s
  {
    if s != [] && IsSpace(c) then SkipFrom(s[0], s[1..]) else (c, s)
  }

  function Skip(s: string): (r: (char, string))
    ensures |r.1| <= |s| && (!IsSpace(r.0) ==> |r.1| < |s|)
    ensures IsSpace(r.0) ==> r.1 == []
  {
    SkipFrom(' ', s)
  }

  function HexValue(c: char): (n: int)
    ensures n < 16
  {
    if 'a' <= c <= 'f' then c as int - 'a' as int + 10
    else if 'A' <= c <= 'F' then c as int - 'A' as int + 10
    else if '0' <= c <= '9' then c as int - '0' as int
    else -1
  }

  /** GetHex; a character that is no digit is passed over, for its error is dropped. */
  function HexOf(s: string, code: nat): nat {
    if s == [] then code
    else HexOf(s[1..], if HexValue(s[0]) >= 0 then (code * 16 + HexValue(s[0])) % 0x1_0000 else code)
  }

  /** What a backslash and c stand for; nothing if c is no escape. */
  function Unescaped(c: char): string {
    if c == '\\' || c == '"' || c == '/' then [c]
    else if c == 'b' then [8 as char]
    else if c == 'f' then [12 as char]
    else if c == 'n' then ['\n']
    else if c == 'r' then ['\r']
    else if c == 't' then ['\t']
    else []
  }

  /** GetString, having gathered acc and read last: at the end of the input last decides. */
  function Scan(s: string, acc: string, last: char): (r: Parsed<string>)
    ensures r.Ok? ==> |r.rest| <= |s|
    decreases |s|
  {
    if s == [] then if last == '"' then Ok(acc, []) else Corrupt
    else if s[0] == '\\' then
      if |s| == 1 then Corrupt
      else if s[1] == 'u' then
        if |s| < 6 then Tripped
        else if HexOf(s[2..6], 0) > 0xff then Corrupt
        else Scan(s[6..], acc + [HexOf(s[2..6], 0) as char], 'u')
      else Scan(s[2..], acc + Unescaped(s[1]), s[1])
    else if s[0] == '"' then Ok(acc, s[1..])
    else Scan(s[1..], acc + [s[0]], s[0])
  }

  function GetString(s: string): (r: Parsed<string>)
    ensures r.Ok? ==> |r.rest| <= |s|
  {
    Scan(s, "", 0 as char)
  }

  predicate StartsOther(c: char) {
    c in "TtFfNn-" || '0' <= c <= '9'
  }

  function GetValue(s: string): (r: Parsed<Value>)
    ensures r.Ok? ==> |r.rest| < |s|
    decreases |s|, 0
  {
    var (c, t) := Skip(s);
    if c == '{' then GetMembers(t, [], true)
    else if c == '[' then GetArray(t)
    else if c == '"' then
      match GetString(t)
      case Ok(x, rest) => Ok(Str(x), rest)
      case Corrupt => Corrupt
      case Tripped => Tripped
      case Unmodelled => Unmodelled
    else if StartsOther(c) then Unmodelled
    else Corrupt
  }

  /** The loop of GetObj. */
  function GetMembers(s: string, ms: seq<(string, Value)>, first: bool): (r: Parsed<Value>)
    ensures r.Ok? ==> |r.rest| <= |s|
    decreases |s|, 1
  {
    var (c, t) := Skip(s);
    if c == '}' && first then Ok(Obj(ms), t)
    else if c != '"' then Corrupt
    else
      match GetString(t)
      case Ok(key, u) =>
        var (colon, w) := Skip(u);
        if colon != ':' then Corrupt
        else
          (match GetValue(w)
           case Ok(v, x) =>
             var (next, y) := Skip(x);
             if next == ',' then GetMembers(y, Put(ms, key, v), false)
             else if next == '}' then Ok(Obj(Put(ms, key, v)), y)
             else Corrupt
           case other => other)
      case Corrupt => Corrupt
      case Tripped => Tripped
      case Unmodelled => Unmodelled
  }

  /** GetArray gives up when the input ends where its first element, or its closing bracket, was read. */
  function GetArray(s: string): (r: Parsed<Value>)
    ensures r.Ok? ==> |r.rest| <= |s|
    decreases |s|, 2
  {
    var (c, t) := Skip(s);
    if t == [] then Corrupt
    else if c == ']' then Ok(Arr([]), t)
    else GetItems([c] + t, [])
  }

  /** The loop of GetArray, with the first character put back. */
  function GetItems(s: string, xs: seq<Value>): (r: Parsed<Value>)
    ensures r.Ok? ==> |r.rest| <= |s|
    decreases |s|, 1
  {
    if s == [] then Corrupt
    else
      match GetValue(s)
      case Ok(v, t) =>
        var (next, u) := Skip(t);
        if next == ',' then GetItems(u, xs + [v])
        else if next == ']' then Ok(Arr(xs + [v]), u)
        else Corrupt
      case other => other
  }

  /** Json::Parse; what follows the value is not looked at. */
  function Parse(s: string): Parsed<Value> { GetValue(s) }

  // ----- Reading back what was written -----

  lemma SkipSpace(s: string)
    ensures Skip([' '] + s) == Skip(s)
  {
    assert ([' '] + s)[1..] == s;
  }

  lemma SkipOver(c: char, s: string)
    requires !IsSpace(c)
    ensures Skip([c] + s) == (c, s)
  {
    assert ([c] + s)[0] == c && ([c] + s)[1..] == s;
    assert SkipFrom(c, s) == (c, s);
    assert SkipFrom(' ', [c] + s) == SkipFrom(([c] + s)[0], ([c] + s)[1..]);
  }

  lemma HexDigitValue(n: nat)
    requires n < 16
    ensures HexValue(HexDigit(n)) == n
  {
  }

  lemma HexStep(d: char, s: string, code: nat)
    requires 0 <= HexValue(d) && code < 16
    ensures HexOf([d] + s, code) == HexOf(s, code * 16 + HexValue(d))
  {
    hide HexValue;
    assert ([d] + s)[0] == d && ([d] + s)[1..] == s;
  }

  lemma HexOfControl(c: char)
    requires c < 0x20 as char
    ensures HexOf(['0', '0', HexDigit(c as int / 16), HexDigit(c as int % 16)], 0) == c as int
  {
    var h, l := HexDigit(c as int / 16), HexDigit(c as int % 16);
    HexDigitValue(c as int / 16);
    HexDigitValue(c as int % 16);
    assert HexValue('0') == 0;
    assert HexOf([], c as int) == c as int;
    hide HexOf, HexValue, HexDigit;
    HexStep(l, [], c as int / 16);
    HexStep(h, [l], 0);
    HexStep('0', [h, l], 0);
    HexStep('0', ['0', h, l], 0);
    assert ['0'] + ['0', h, l] == ['0', '0', h, l] && ['0'] + [h, l] == ['0', h, l];
    assert [h] + [l] == [h, l] && [l] + [] == [l];
  }

  lemma EscapedShape(c: char)
    ensures var e := Escaped(c);
      (e == [c] && c != '"' && c != '\\') ||
      (|e| == 2 && e[0] == '\\' && e[1] != 'u' && Unescaped(e[1]) == [c]) ||
      (c < 0x20 as char && e == ['\\', 'u', '0', '0', HexDigit(c as int / 16), HexDigit(c as int % 16)])
  {
  }

  /** Reading one written character gives it back; what was read last matters only at the end. */
  lemma ScanOne(c: char, t: string, acc: string, last: char)
    requires t != []
    ensures Scan(Escaped(c) + t, acc, last) == Scan(t, acc + [c], last)
  {
    var e, s := Escaped(c), Escaped(c) + t;
    EscapedShape(c);
    hide Escaped, Unescaped, HexOf, HexDigit;
    if |e| == 1 {
      assert s[1..] == t;
      LastDoesNotMatter(t, acc + [c], last, c);
    } else if |e| == 2 {
      assert s[0] == e[0] && s[1] == e[1] && s[2..] == t;
      LastDoesNotMatter(t, acc + [c], last, e[1]);
    } else {
      assert s[0] == e[0] && s[1] == e[1] && s[2..6] == e[2..] && s[6..] == t;
      HexOfControl(c);
      LastDoesNotMatter(t, acc + [c], last, 'u');
    }
  }

  lemma LastDoesNotMatter(t: string, acc: string, last: char, last': char)
    requires t != []
    ensures Scan(t, acc, last) == Scan(t, acc, last')
  {
  }

  lemma Moved<T>(done: seq<T>, todo: seq<T>)
    requires todo != []
    ensures done + [todo[0]] + todo[1..] == done + todo
  {
  }

  lemma ScanEnd(rest: string, acc: string, last: char)
    ensures Scan(EscapedAll("") + ['"'] + rest, acc, last) == Ok(acc, rest)
  {
    assert EscapedAll("") + ['"'] + rest == ['"'] + rest;
  }

  lemma EscapedText(s: string, rest: string)
    requires s != []
    ensures EscapedAll(s) + ['"'] + rest == Escaped(s[0]) + (EscapedAll(s[1..]) + ['"'] + rest)
  {
    hide Escaped;
  }

  lemma {:induction false} ScanEscaped(s: string, rest: string, acc: string, last: char)
    ensures Scan(EscapedAll(s) + ['"'] + rest, acc, last) == Ok(acc + s, rest)
    decreases s
  {
    hide *;
    if s == [] {
      ScanEnd(rest, acc, last);
      assert acc + s == acc;
    } else {
      EscapedText(s, rest);
      ScanOne(s[0], EscapedAll(s[1..]) + ['"'] + rest, acc, last);
      ScanEscaped(s[1..], rest, acc + [s[0]], last);
      Moved(acc, s);
    }
  }

  lemma QuotedRead(s: string, rest: string)
    ensures Quoted(s) + rest == ['"'] + (EscapedAll(s) + ['"'] + rest)
    ensures GetString(EscapedAll(s) + ['"'] + rest) == Ok(s, rest)
  {
    hide Scan, EscapedAll;
    ScanEscaped(s, rest, "", 0 as char);
    assert "" + s == s;
  }

  lemma WrittenStarts(v: Value)
    ensures Written(v) != [] && !IsSpace(Written(v)[0]) && Written(v)[0] != ']'
  {
  }

  lemma SpaceBefore(s: string)
    requires s != []
    ensures GetValue([' '] + s) == GetValue(s)
  {
    hide SkipFrom, GetMembers, GetArray, GetString;
    SkipSpace(s);
  }

  lemma WrittenHead(v: Value, t: string)
    ensures Written(v) != [] && Written(v) + t != []
    ensures var c := Written(v)[0];
      c != ']' && Skip(Written(v) + t) == (c, Written(v)[1..] + t) &&
      Written(v) + t == [c] + (Written(v)[1..] + t)
  {
    WrittenStarts(v);
    hide Written, SkipFrom, IsSpace;
    var w := Written(v);
    assert w == [w[0]] + w[1..];
    assert w + t == [w[0]] + (w[1..] + t);
    SkipOver(w[0], w[1..] + t);
  }

  /** What GetMembers does once a member has been read. */
  function AfterMember(x: string, ms: seq<(string, Value)>): Parsed<Value> {
    var (next, y) := Skip(x);
    if next == ',' then GetMembers(y, ms, false)
    else if next == '}' then Ok(Obj(ms), y)
    else Corrupt
  }

  /** What follows the colon of a member. */
  function Colon(v: Value, x: string): string { [':'] + ([' '] + (Written(v) + x)) }

  lemma MemberSplit(key: string, v: Value, x: string)
    ensures WrittenMember((key, v)) + x == ['"'] + (EscapedAll(key) + ['"'] + Colon(v, x))
  {
    hide EscapedAll, Written;
    assert ": " == [':'] + [' '];
  }

  lemma MemberRead(key: string, v: Value, x: string, ms: seq<(string, Value)>, first: bool)
    requires GetValue(Written(v) + x) == Ok(v, x)
    ensures GetMembers([' '] + (WrittenMember((key, v)) + x), ms, first) == AfterMember(x, Put(ms, key, v))
  {
    var w := [' '] + (Written(v) + x);
    var q := EscapedAll(key) + ['"'] + Colon(v, x);
    assert Colon(v, x) == [':'] + w;
    QuotedRead(key, Colon(v, x));
    MemberSplit(key, v, x);
    SpaceAhead(v, x);
    hide SkipFrom, EscapedAll, Scan, Written, GetValue, Put, WrittenMember, Colon, Quoted;
    SkipSpace(['"'] + q);
    SkipOver('"', q);
    SkipOver(':', w);
    hide Skip, GetString;
  }

  lemma SpaceAhead(v: Value, x: string)
    ensures GetValue([' '] + (Written(v) + x)) == GetValue(Written(v) + x)
  {
    WrittenHead(v, x);
    hide Written, GetValue;
    SpaceBefore(Written(v) + x);
  }

  /** What GetItems does once an element has been read. */
  function AfterItem(x: string, xs: seq<Value>): Parsed<Value> {
    var (next, y) := Skip(x);
    if next == ',' then GetItems(y, xs)
    else if next == ']' then Ok(Arr(xs), y)
    else Corrupt
  }

  lemma ItemRead(v: Value, x: string, xs: seq<Value>)
    requires GetValue(Written(v) + x) == Ok(v, x)
    ensures GetItems(Written(v) + x, xs) == AfterItem(x, xs + [v])
    ensures GetItems([' '] + (Written(v) + x), xs) == AfterItem(x, xs + [v])
  {
    WrittenHead(v, x);
    SpaceAhead(v, x);
    hide SkipFrom, Written, GetValue;
  }

  /** After a comma and a space comes what follows; after a space and a bracket, the end. */
  lemma Separators(t: string, c: char)
    requires !IsSpace(c)
    ensures Skip(", " + t) == (',', [' '] + t)
    ensures Skip([' ', c] + t) == (c, t)
  {
    hide SkipFrom;
    assert ", " + t == [','] + ([' '] + t);
    SkipOver(',', [' '] + t);
    assert [' ', c] + t == [' '] + ([c] + t);
    SkipSpace([c] + t);
    SkipOver(c, t);
  }

  /** Reading an element that is followed by the end of the input works for all but the empty array. */
  ghost predicate Readable(v: Value, rest: string) { v == Arr([]) ==> rest != [] }

  lemma {:induction false} ReadWritten(v: Value, rest: string)
    requires WellFormed(v) && Readable(v, rest)
    ensures GetValue(Written(v) + rest) == Ok(v, rest)
    decreases v, 3
  {
    match v {
      case Str(s) => StringRead(s, rest);
      case Obj(ms) => ObjectRead(ms, rest);
      case Arr(xs) => ArrayRead(xs, rest);
    }
  }

  lemma StringRead(s: string, rest: string)
    ensures GetValue(Written(Str(s)) + rest) == Ok(Str(s), rest)
  {
    QuotedRead(s, rest);
    hide SkipFrom, EscapedAll, Scan;
    SkipOver('"', EscapedAll(s) + ['"'] + rest);
  }

  lemma ObjectStarts(ms: seq<(string, Value)>, rest: string)
    ensures GetValue(Written(Obj(ms)) + rest) == GetMembers([' '] + (WrittenMembers(ms) + (" }" + rest)), [], true)
  {
    hide SkipFrom, GetMembers, WrittenMembers;
    var t := [' '] + (WrittenMembers(ms) + (" }" + rest));
    assert "{ " == ['{'] + [' '];
    assert Written(Obj(ms)) + rest == ['{'] + t;
    SkipOver('{', t);
  }

  lemma {:induction false} ObjectRead(ms: seq<(string, Value)>, rest: string)
    requires WellFormed(Obj(ms))
    ensures GetValue(Written(Obj(ms)) + rest) == Ok(Obj(ms), rest)
    decreases ms, 2
  {
    ObjectStarts(ms, rest);
    if ms == [] {
      hide SkipFrom, GetValue;
      assert [' '] + (WrittenMembers(ms) + (" }" + rest)) == [' '] + ([' ', '}'] + rest);
      SkipSpace([' ', '}'] + rest);
      Separators(rest, '}');
    } else {
      hide GetMembers, GetValue, WrittenMembers;
      MembersRead([], ms, true, rest);
      assert [] + ms == ms;
    }
  }

  lemma PutNext(done: seq<(string, Value)>, todo: seq<(string, Value)>)
    requires todo != [] && Sorted(done + todo)
    ensures Put(done, todo[0].0, todo[0].1) == done + [todo[0]]
  {
    hide Less, Put;
    forall i | 0 <= i < |done| ensures Less(done[i].0, todo[0].0) {
      assert (done + todo)[i] == done[i] && (done + todo)[|done|] == todo[0];
    }
    PutLast(done, todo[0].0, todo[0].1);
  }

  /** What follows the first of the members todo. */
  function Following(todo: seq<(string, Value)>, rest: string): string
    requires todo != []
  {
    if |todo| == 1 then [' ', '}'] + rest else ", " + (WrittenMembers(todo[1..]) + (" }" + rest))
  }

  lemma MembersSplit(todo: seq<(string, Value)>, rest: string)
    requires todo != []
    ensures WrittenMembers(todo) + (" }" + rest) == WrittenMember(todo[0]) + Following(todo, rest)
  {
    hide WrittenMember;
  }

  lemma FollowingRead(todo: seq<(string, Value)>, ms: seq<(string, Value)>, rest: string)
    requires todo != []
    ensures AfterMember(Following(todo, rest), ms) ==
      if |todo| == 1 then Ok(Obj(ms), rest)
      else GetMembers([' '] + (WrittenMembers(todo[1..]) + (" }" + rest)), ms, false)
  {
    hide GetMembers, WrittenMembers, Skip;
    Separators(rest, '}');
    Separators(WrittenMembers(todo[1..]) + (" }" + rest), '}');
  }

  lemma {:induction false} MembersRead(done: seq<(string, Value)>, todo: seq<(string, Value)>, first: bool, rest: string)
    requires todo != [] && Sorted(done + todo)
    requires forall i :: 0 <= i < |todo| ==> WellFormed(todo[i].1)
    ensures GetMembers([' '] + (WrittenMembers(todo) + (" }" + rest)), done, first) == Ok(Obj(done + todo), rest)
    decreases todo, 1
  {
    var x := Following(todo, rest);
    hide *;
    MembersSplit(todo, rest);
    MemberValueRead(todo[0], x);
    PutNext(done, todo);
    Moved(done, todo);
    MemberRead(todo[0].0, todo[0].1, x, done, first);
    assert todo[0] == (todo[0].0, todo[0].1);
    FollowingRead(todo, done + [todo[0]], rest);
    if |todo| == 1 {
      assert done + todo == done + [todo[0]];
    } else {
      MembersRead(done + [todo[0]], todo[1..], false, rest);
    }
  }

  lemma MemberValueRead(m: (string, Value), x: string)
    requires WellFormed(m.1) && x != []
    ensures GetValue(Written(m.1) + x) == Ok(m.1, x)
    decreases m, 4
  {
    ReadWritten(m.1, x);
  }

  lemma ArrayStarts(xs: seq<Value>, rest: string)
    requires xs == [] ==> rest != []
    ensures GetValue(Written(Arr(xs)) + rest) ==
      if xs == [] then Ok(Arr([]), rest) else GetItems(WrittenItems(xs) + (" ]" + rest), [])
  {
    hide SkipFrom, GetItems;
    var s := WrittenItems(xs) + (" ]" + rest);
    var t := [' '] + s;
    assert "[ " == ['['] + [' '];
    assert Written(Arr(xs)) + rest == ['['] + t;
    SkipOver('[', t);
    SkipSpace(s);
    if xs == [] {
      assert s == [' ', ']'] + rest;
      Separators(rest, ']');
    } else {
      ItemsHead(xs, rest);
    }
  }

  /** What follows the first of the elements todo. */
  function ItemsFollowing(todo: seq<Value>, rest: string): (x: string)
    requires todo != []
    ensures x != []
  {
    if |todo| == 1 then [' ', ']'] + rest else ", " + (WrittenItems(todo[1..]) + (" ]" + rest))
  }

  lemma ItemsSplit(todo: seq<Value>, rest: string)
    requires todo != []
    ensures WrittenItems(todo) + (" ]" + rest) == Written(todo[0]) + ItemsFollowing(todo, rest)
  {
    hide Written;
  }

  lemma ItemsFollowingRead(todo: seq<Value>, xs: seq<Value>, rest: string)
    requires todo != []
    ensures AfterItem(ItemsFollowing(todo, rest), xs) ==
      if |todo| == 1 then Ok(Arr(xs), rest)
      else GetItems([' '] + (WrittenItems(todo[1..]) + (" ]" + rest)), xs)
  {
    hide GetItems, WrittenItems, Skip;
    Separators(rest, ']');
    Separators(WrittenItems(todo[1..]) + (" ]" + rest), ']');
  }

  lemma ItemsHead(xs: seq<Value>, rest: string)
    requires xs != []
    ensures var s := WrittenItems(xs) + (" ]" + rest);
      var (c, t) := Skip(s); s == [c] + t && t != [] && c != ']'
  {
    hide *;
    ItemsSplit(xs, rest);
    WrittenHead(xs[0], ItemsFollowing(xs, rest));
  }

  lemma {:induction false} ArrayRead(xs: seq<Value>, rest: string)
    requires WellFormed(Arr(xs)) && Readable(Arr(xs), rest)
    ensures GetValue(Written(Arr(xs)) + rest) == Ok(Arr(xs), rest)
    decreases xs, 2
  {
    hide GetValue, GetItems, Written, WrittenItems;
    ArrayStarts(xs, rest);
    if xs != [] {
      ItemsRead([], xs, rest);
      assert [] + xs == xs;
    }
  }

  lemma {:induction false} ItemsRead(done: seq<Value>, todo: seq<Value>, rest: string)
    requires todo != [] && forall i :: 0 <= i < |todo| ==> WellFormed(todo[i])
    ensures GetItems(WrittenItems(todo) + (" ]" + rest), done) == Ok(Arr(done + todo), rest)
    ensures GetItems([' '] + (WrittenItems(todo) + (" ]" + rest)), done) == Ok(Arr(done + todo), rest)
    decreases todo, 1
  {
    var x := ItemsFollowing(todo, rest);
    hide *;
    ItemsSplit(todo, rest);
    ReadWritten(todo[0], x);
    ItemRead(todo[0], x, done);
    ItemsFollowingRead(todo, done + [todo[0]], rest);
    Moved(done, todo);
    if |todo| == 1 {
      assert done + todo == done + [todo[0]];
    } else {
      ItemsRead(done + [todo[0]], todo[1..], rest);
    }
  }

  /** Parsing what Stringify writes gives the value back, for every value but the empty array. */
  lemma ParseStringify(v: Value)
    requires WellFormed(v)
    ensures Parse(Written(v)) == Ok(v, []) <==> v != Arr([])
    ensures v == Arr([]) ==> Parse(Written(v)) == Corrupt
  {
    if v != Arr([]) {
      ReadWritten(v, []);
      assert Written(v) + [] == Written(v);
    } else {
      EmptyArray();
    }
  }

  lemma EmptyArray()
    ensures Parse(Written(Arr([]))) == Corrupt
  {
    hide SkipFrom;
    assert Written(Arr([])) == ['['] + [' ', ' ', ']'];
    SkipOver('[', [' ', ' ', ']']);
    assert [' '] + [' ', ']'] == [' ', ' ', ']'];
    SkipSpace([' ', ']']);
    assert [' ', ']'] + [] == [' ', ']'];
    Separators([], ']');
  }

  /** No two values are written alike. */
  lemma WrittenApart(v: Value, w: Value)
    requires WellFormed(v) && WellFormed(w) && Written(v) == Written(w)
    ensures v == w
  {
    hide Written, GetValue;
    ReadWritten(v, " ");
    ReadWritten(w, " ");
  }

  // ----- What is read is a value -----

  lemma {:induction false} LessIsTotal(a: string, b: string)
    ensures a == b || Less(a, b) || Less(b, a)
    decreases a
  {
    if a != [] && b != [] && a[0] == b[0] {
      LessIsTotal(a[1..], b[1..]);
      assert a == [a[0]] + a[1..] && b == [b[0]] + b[1..];
    }
  }

  lemma {:induction false} LessIsTransitive(a: string, b: string, c: string)
    requires Less(a, b) && Less(b, c)
    ensures Less(a, c)
    decreases a
  {
    if a != [] && a[0] == b[0] && b[0] == c[0] { LessIsTransitive(a[1..], b[1..], c[1..]); }
  }

  /** Putting a key sets what it stands for and changes nothing else. */
  lemma {:induction false} PutSets(ms: seq<(string, Value)>, key: string, v: Value, m: (string, Value))
    requires Sorted(ms)
    ensures m in Put(ms, key, v) <==> if m.0 == key then m.1 == v else m in ms
    decreases ms
  {
    hide Less;
    assert m == (m.0, m.1);
    if ms != [] {
      assert ms == [ms[0]] + ms[1..];
      forall i, j | 0 <= i < j < |ms[1..]| ensures Less(ms[1..][i].0, ms[1..][j].0) {
        assert ms[1..][i] == ms[i + 1] && ms[1..][j] == ms[j + 1];
      }
      PutSets(ms[1..], key, v, m);
      KeysDiffer(ms, key);
    }
  }

  lemma KeysDiffer(ms: seq<(string, Value)>, key: string)
    requires ms != [] && Sorted(ms)
    ensures forall m :: m in ms[1..] ==> m.0 != ms[0].0
    ensures Less(key, ms[0].0) ==> forall m :: m in ms ==> m.0 != key
  {
    hide Less;
    forall m | m in ms[1..] ensures m.0 != ms[0].0 {
      var i :| 1 <= i < |ms| && ms[i] == m;
      LessIsStrict(ms[0].0, m.0);
    }
    if Less(key, ms[0].0) {
      LessIsStrict(key, ms[0].0);
      forall m | m in ms ensures m.0 != key {
        var i :| 0 <= i < |ms| && ms[i] == m;
        if i > 0 {
          LessIsTransitive(key, ms[0].0, m.0);
          LessIsStrict(key, m.0);
        }
      }
    }
  }

  lemma SortedPrepend(m: (string, Value), ms: seq<(string, Value)>)
    requires Sorted(ms) && forall i :: 0 <= i < |ms| ==> Less(m.0, ms[i].0)
    ensures Sorted([m] + ms)
  {
    hide Less;
    forall i, j | 0 <= i < j < |[m] + ms| ensures Less(([m] + ms)[i].0, ([m] + ms)[j].0) {
      assert ([m] + ms)[j] == ms[j - 1];
      if i > 0 { assert ([m] + ms)[i] == ms[i - 1]; }
    }
  }

  lemma SortedTail(ms: seq<(string, Value)>)
    requires ms != [] && Sorted(ms)
    ensures Sorted(ms[1..])
  {
    hide Less;
    forall i, j | 0 <= i < j < |ms[1..]| ensures Less(ms[1..][i].0, ms[1..][j].0) {
      assert ms[1..][i] == ms[i + 1] && ms[1..][j] == ms[j + 1];
    }
  }

  lemma {:induction false} PutKeepsOrder(ms: seq<(string, Value)>, key: string, v: Value)
    requires Sorted(ms)
    ensures Sorted(Put(ms, key, v))
    decreases ms
  {
    if ms != [] {
      SortedTail(ms);
      LessIsTotal(key, ms[0].0);
      hide Less;
      if ms[0].0 == key {
        SortedPrepend((key, v), ms[1..]);
      } else if Less(key, ms[0].0) {
        forall i | 0 <= i < |ms| ensures Less(key, ms[i].0) {
          if i > 0 { LessIsTransitive(key, ms[0].0, ms[i].0); }
        }
        SortedPrepend((key, v), ms);
      } else {
        PutKeepsOrder(ms[1..], key, v);
        var more := Put(ms[1..], key, v);
        forall i | 0 <= i < |more| ensures Less(ms[0].0, more[i].0) {
          PutSets(ms[1..], key, v, more[i]);
          if more[i].0 != key { var j :| 1 <= j < |ms| && ms[j] == more[i]; }
        }
        SortedPrepend(ms[0], more);
      }
    }
  }

  ghost predicate Members(ms: seq<(string, Value)>) { WellFormed(Obj(ms)) }

  lemma PutMember(ms: seq<(string, Value)>, key: string, v: Value)
    requires Members(ms) && WellFormed(v)
    ensures Members(Put(ms, key, v))
  {
    PutKeepsOrder(ms, key, v);
    hide Sorted;
    var more := Put(ms, key, v);
    forall i | 0 <= i < |more| ensures WellFormed(more[i].1) {
      PutSets(ms, key, v, more[i]);
      if more[i].0 != key { var j :| 0 <= j < |ms| && ms[j] == more[i]; }
    }
  }

  /** Whatever the input, a value that is read has each key once and its keys in order. */
  lemma {:induction false} ParsedIsWellFormed(s: string)
    ensures GetValue(s).Ok? ==> WellFormed(GetValue(s).value)
    decreases |s|, 0
  {
    var (c, t) := Skip(s);
    assert Members([]);
    hide SkipFrom, GetMembers, GetArray, Scan, Sorted;
    if c == '{' {
      MembersWellFormed(t, [], true);
    } else if c == '[' {
      ArrayWellFormed(t);
    }
  }

  lemma {:induction false} MembersWellFormed(s: string, ms: seq<(string, Value)>, first: bool)
    requires Members(ms)
    ensures var r := GetMembers(s, ms, first); r.Ok? ==> WellFormed(r.value)
    decreases |s|, 1
  {
    hide SkipFrom, Scan, GetValue, Sorted, Put, WellFormed;
    var (c, t) := Skip(s);
    if c == '"' && GetString(t).Ok? {
      var (colon, w) := Skip(GetString(t).rest);
      if colon == ':' && GetValue(w).Ok? {
        ParsedIsWellFormed(w);
        PutMember(ms, GetString(t).value, GetValue(w).value);
        var (next, y) := Skip(GetValue(w).rest);
        if next == ',' { MembersWellFormed(y, Put(ms, GetString(t).value, GetValue(w).value), false); }
      }
    }
  }

  lemma {:induction false} ArrayWellFormed(s: string)
    ensures GetArray(s).Ok? ==> WellFormed(GetArray(s).value)
    decreases |s|, 2
  {
    var (c, t) := Skip(s);
    hide SkipFrom, GetItems;
    if t != [] && c != ']' { ItemsWellFormed([c] + t, []); }
  }

  lemma {:induction false} ItemsWellFormed(s: string, xs: seq<Value>)
    requires WellFormed(Arr(xs))
    ensures GetItems(s, xs).Ok? ==> WellFormed(GetItems(s, xs).value)
    decreases |s|, 1
  {
    hide SkipFrom, GetValue, Sorted;
    if s != [] && GetValue(s).Ok? {
      ParsedIsWellFormed(s);
      var more := xs + [GetValue(s).value];
      assert WellFormed(Arr(more));
      var (next, u) := Skip(GetValue(s).rest);
      hide WellFormed;
      if next == ',' { ItemsWellFormed(u, more); }
    }
  }

  /** Writing what was read and reading it again gives the same value. */
  lemma ParseAgain(s: string)
    requires Parse(s).Ok? && Parse(s).value != Arr([])
    ensures Parse(Written(Parse(s).value)) == Ok(Parse(s).value, [])
  {
    ParsedIsWellFormed(s);
    ParseStringify(Parse(s).value);
  }
}
