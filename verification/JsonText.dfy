/** How voyager/util/json/json.cc writes and reads: a result string that grows in place, and a
    cursor over the input. */
module JsonText {
  import opened Json

  class JsonWriter {
    var result: string

    constructor ()
      ensures result == []
    {
      result := [];
    }

    /** Plain characters are copied in runs: begin is where the run not yet copied starts. */
    method WriteString(s: string)
      modifies this
      ensures result == old(result) + Quoted(s)
    {
      hide *;
      var begin, i := 0, 0;
      result := result + "\"";
      ghost var start := result;
      EscapedAllEmpty();
      while i < |s|
        invariant begin <= i <= |s|
        invariant result == start + EscapedAll(s[..begin])
        invariant EscapedAll(s[..i]) == EscapedAll(s[..begin]) + s[begin..i]
      {
        RunGrows(s, begin, i);
        var c := s[i];
        if !IsPlain(c) {
          Regroup(start, EscapedAll(s[..begin]), s[begin..i], Replacement(c));
          result := result + s[begin..i];
          result := result + Replacement(c);
          begin := i + 1;
        }
        i := i + 1;
      }
      assert s[..i] == s;
      Regroup(start, EscapedAll(s[..begin]), s[begin..i], "\"");
      RegroupQuoted(old(result), s);
      result := result + s[begin..i];
      result := result + "\"";
    }

    method Stringify(v: Value)
      modifies this
      ensures result == old(result) + Written(v)
      decreases v, 1
    {
      match v {
        case Str(s) => WriteString(s);
        case Obj(ms) => WriteObj(ms);
        case Arr(xs) => WriteArray(xs);
      }
    }

    method WriteObj(ms: seq<(string, Value)>)
      modifies this
      ensures result == old(result) + Written(Obj(ms))
      decreases ms, 0
    {
      hide *;
      result := result + "{ ";
      var i := 0;
      ghost var start := result;
      MembersEnd(old(result), ms);
      while i < |ms|
        invariant 0 <= i <= |ms|
        invariant result + MembersFrom(ms, i) == start + WrittenMembers(ms)
      {
        ghost var before := result;
        MembersFromStep(ms, i, before);
        if i != 0 { result := result + ", "; }
        WriteString(ms[i].0);
        result := result + ": ";
        StringifySecond(ms[i]);
        i := i + 1;
      }
      assert result + "" == result;
      result := result + " }";
    }

    method StringifySecond(m: (string, Value))
      modifies this
      ensures result == old(result) + Written(m.1)
      decreases m, 2
    {
      Stringify(m.1);
    }

    /** Each element is written to a string of its own first. */
    method WriteArray(xs: seq<Value>)
      modifies this
      ensures result == old(result) + Written(Arr(xs))
      decreases xs, 0
    {
      hide *;
      result := result + "[ ";
      var i := 0;
      ghost var start := result;
      ItemsEnd(old(result), xs);
      while i < |xs|
        invariant 0 <= i <= |xs|
        invariant result + ItemsFrom(xs, i) == start + WrittenItems(xs)
      {
        ghost var before := result;
        ItemsFromStep(xs, i, before);
        if i != 0 { result := result + ", "; }
        var temp := new JsonWriter();
        temp.Stringify(xs[i]);
        assert temp.result == Written(xs[i]);
        result := result + temp.result;
        i := i + 1;
      }
      assert result + "" == result;
      result := result + " ]";
    }
  }

  lemma Regroup(a: string, b: string, c: string, d: string)
    ensures a + b + c + d == a + (b + c + d)
  {
  }

  lemma RegroupQuoted(r: string, s: string)
    ensures r + "\"" + (EscapedAll(s) + "\"") == r + Quoted(s)
  {
    hide EscapedAll;
  }

  lemma EscapedAllEmpty()
    ensures forall s: string :: EscapedAll(s[..0]) == [] && s[0..0] == []
  {
  }

  /** The run of plain characters from begin on grows by one, or is copied with a replacement. */
  lemma RunGrows(s: string, begin: nat, i: nat)
    requires begin <= i < |s| && EscapedAll(s[..i]) == EscapedAll(s[..begin]) + s[begin..i]
    ensures IsPlain(s[i]) ==> EscapedAll(s[..i + 1]) == EscapedAll(s[..begin]) + s[begin..i + 1]
    ensures !IsPlain(s[i]) ==>
      EscapedAll(s[..i + 1]) == EscapedAll(s[..begin]) + s[begin..i] + Replacement(s[i]) &&
      EscapedAll(s[..i + 1]) == EscapedAll(s[..i + 1]) + s[i + 1..i + 1]
  {
    EscapedAllNext(s, i);
    hide *;
    if IsPlain(s[i]) {
      RunExtended(EscapedAll(s[..begin]), s, begin, i - begin);
    } else {
      NoRun(EscapedAll(s[..i + 1]), s, i + 1);
    }
  }

  predicate IsPlain(c: char) {
    c != '"' && c != '\\' && c != '/' && c >= 0x20 as char
  }

  /** The escape of a character that is not plain. */
  function Replacement(c: char): (r: string)
    requires !IsPlain(c)
  {
    if c == '"' then "\\\""
    else if c == '\\' then "\\\\"
    else if c == '/' then "\\/"
    else if c == 8 as char then "\\b"
    else if c == 12 as char then "\\f"
    else if c == '\n' then "\\n"
    else if c == '\r' then "\\r"
    else if c == '\t' then "\\t"
    else "\\u" + ['0', '0', HexDigit(c as int / 16), HexDigit(c as int % 16)]
  }

  lemma ReplacementEscapes(c: char)
    ensures Escaped(c) == if IsPlain(c) then [c] else Replacement(c)
  {
  }

  lemma {:induction false} EscapedAllNext(s: string, i: nat)
    requires i < |s|
    ensures EscapedAll(s[..i + 1]) == EscapedAll(s[..i]) + Escaped(s[i])
    ensures Escaped(s[i]) == if IsPlain(s[i]) then [s[i]] else Replacement(s[i])
    decreases i
  {
    ReplacementEscapes(s[i]);
    hide Escaped, Replacement;
    EscapedAllAppend(s[..i], s[i]);
    assert s[..i + 1] == s[..i] + [s[i]];
  }

  lemma {:induction false} EscapedAllAppend(s: string, c: char)
    ensures EscapedAll(s + [c]) == EscapedAll(s) + Escaped(c)
    decreases s
  {
    hide Escaped;
    if s == [] {
      assert s + [c] == [c] && EscapedAll([c]) == Escaped(c) + EscapedAll([]);
    } else {
      EscapedAllAppend(s[1..], c);
      assert (s + [c])[1..] == s[1..] + [c];
    }
  }

  /** The members from the i-th on, with the comma before them. */
  function MembersFrom(ms: seq<(string, Value)>, i: nat): string
    requires i <= |ms|
  {
    if i == |ms| then "" else (if i == 0 then "" else ", ") + WrittenMembers(ms[i..])
  }

  lemma EmptyTexts()
    ensures WrittenMembers([]) == "" && WrittenItems([]) == ""
  {
  }

  lemma MembersFromStep(ms: seq<(string, Value)>, i: nat, r: string)
    requires i < |ms|
    ensures r + MembersFrom(ms, i) ==
      (if i == 0 then r else r + ", ") + Quoted(ms[i].0) + ": " + Written(ms[i].1) + MembersFrom(ms, i + 1)
  {
    MembersFromCons(ms, i);
    assert WrittenMember(ms[i]) == Quoted(ms[i].0) + ": " + Written(ms[i].1);
    hide *;
    RegroupMember(r, if i == 0 then "" else ", ", Quoted(ms[i].0), Written(ms[i].1), MembersFrom(ms, i + 1));
    assert r + "" == r;
  }

  lemma RegroupMember(r: string, comma: string, key: string, v: string, more: string)
    ensures r + (comma + (key + ": " + v + more)) == r + comma + key + ": " + v + more
  {
  }

  lemma MembersFromCons(ms: seq<(string, Value)>, i: nat)
    requires i < |ms|
    ensures MembersFrom(ms, i) == (if i == 0 then "" else ", ") + (WrittenMember(ms[i]) + MembersFrom(ms, i + 1))
  {
    hide WrittenMember;
    assert ms[i..][0] == ms[i] && ms[i..][1..] == ms[i + 1..];
  }

  lemma MembersEnd(r: string, ms: seq<(string, Value)>)
    ensures MembersFrom(ms, 0) == WrittenMembers(ms)
    ensures MembersFrom(ms, |ms|) == ""
    ensures r + "{ " + WrittenMembers(ms) + " }" == r + Written(Obj(ms))
  {
    Regroup(r, "{ ", WrittenMembers(ms), " }");
    hide WrittenMembers;
    assert ms[0..] == ms;
    assert Written(Obj(ms)) == "{ " + WrittenMembers(ms) + " }";
    EmptyTexts();
  }

  /** The elements from the i-th on, with the comma before them. */
  function ItemsFrom(xs: seq<Value>, i: nat): string
    requires i <= |xs|
  {
    if i == |xs| then "" else (if i == 0 then "" else ", ") + WrittenItems(xs[i..])
  }

  lemma ItemsFromStep(xs: seq<Value>, i: nat, r: string)
    requires i < |xs|
    ensures r + ItemsFrom(xs, i) == (if i == 0 then r else r + ", ") + Written(xs[i]) + ItemsFrom(xs, i + 1)
  {
    ItemsFromCons(xs, i);
    hide *;
    Regroup(r, if i == 0 then "" else ", ", Written(xs[i]), ItemsFrom(xs, i + 1));
    RegroupItem(if i == 0 then "" else ", ", Written(xs[i]), ItemsFrom(xs, i + 1));
    assert r + "" == r;
  }

  lemma RegroupItem(comma: string, w: string, more: string)
    ensures comma + (w + more) == comma + w + more
  {
  }

  lemma ItemsFromCons(xs: seq<Value>, i: nat)
    requires i < |xs|
    ensures ItemsFrom(xs, i) == (if i == 0 then "" else ", ") + (Written(xs[i]) + ItemsFrom(xs, i + 1))
  {
    hide Written;
    assert xs[i..][0] == xs[i] && xs[i..][1..] == xs[i + 1..];
  }

  lemma ItemsEnd(r: string, xs: seq<Value>)
    ensures ItemsFrom(xs, 0) == WrittenItems(xs)
    ensures ItemsFrom(xs, |xs|) == ""
    ensures r + "[ " + WrittenItems(xs) + " ]" == r + Written(Arr(xs))
  {
    Regroup(r, "[ ", WrittenItems(xs), " ]");
    hide WrittenItems;
    assert xs[0..] == xs;
    assert Written(Arr(xs)) == "[ " + WrittenItems(xs) + " ]";
    EmptyTexts();
  }

  // ----- The reader -----

  datatype Status = Fine | Corruption | PastEnd | NotModelled

  /** A status, a value and the input left are what the reference parser gives. */
  ghost predicate Agrees<T>(p: Parsed<T>, st: Status, x: T, left: string) {
    match st
    case Fine => p == Ok(x, left)
    case Corruption => p == Corrupt
    case PastEnd => p == Tripped
    case NotModelled => p == Unmodelled
  }

  class JsonReader {
    var data: string
    var cur: nat

    constructor (data: string)
      ensures this.data == data && cur == 0
    {
      this.data := data;
      cur := 0;
    }

    predicate Valid()
      reads this
    {
      cur <= |data|
    }

    function Left(): string
      requires Valid()
      reads this
    {
      data[cur..]
    }

    predicate HasEnd()
      reads this
    {
      cur >= |data|
    }

    method Read() returns (c: char)
      requires cur + 1 <= |data|
      modifies this`cur
      ensures cur == old(cur) + 1
      ensures Valid() && old(Left()) == [c] + Left()
    {
      cur := cur + 1;
      c := data[cur - 1];
    }

    method Back()
      requires Valid() && cur > 0
      modifies this`cur
      ensures cur == old(cur) - 1
      ensures Valid() && Left() == [data[cur]] + old(Left())
    {
      cur := cur - 1;
    }

    method SkipWhiteSpace() returns (c: char)
      requires Valid()
      modifies this`cur
      ensures Valid() && (c, Left()) == Skip(old(Left()))
      ensures old(cur) <= cur
      ensures old(cur) < cur ==> c == data[cur - 1]
      ensures !IsSpace(c) ==> old(cur) < cur
    {
      c := ' ';
      while !HasEnd() && (c == ' ' || c == '\t' || c == '\r' || c == '\n')
        invariant Valid() && old(cur) <= cur
        invariant SkipFrom(c, Left()) == Skip(old(Left()))
        invariant old(cur) < cur ==> c == data[cur - 1]
        invariant !IsSpace(c) ==> old(cur) < cur
        decreases |data| - cur
      {
        c := Read();
      }
    }

    /** A character that is no hexadecimal digit changes nothing. */
    method GetHex() returns (st: Status, code: nat)
      requires Valid()
      modifies this`cur
      ensures Valid()
      ensures st == if |old(Left())| < 4 then PastEnd else Fine
      ensures st.Fine? ==> cur == old(cur) + 4 && code == HexOf(old(Left())[..4], 0)
    {
      code := 0;
      ghost var s := Left();
      for i := 0 to 4
        invariant Valid() && cur == old(cur) + i && i <= |s|
        invariant |s| >= 4 ==> HexOf(s[i..4], code) == HexOf(s[..4], 0)
      {
        if HasEnd() { return PastEnd, 0; }
        ghost var before := code;
        var c := Read();
        assert c == s[i];
        if 'a' <= c <= 'f' {
          code := (code * 16 + c as int - 'a' as int + 10) % 0x1_0000;
        } else if 'A' <= c <= 'F' {
          code := (code * 16 + c as int - 'A' as int + 10) % 0x1_0000;
        } else if '0' <= c <= '9' {
          code := (code * 16 + c as int - '0' as int) % 0x1_0000;
        }
        if |s| >= 4 { HexOfNext(s[i..4], before); assert s[i..4][1..] == s[i + 1..4]; }
      }
      if |s| >= 4 { assert s[4..4] == []; }
      st := Fine;
    }

    /** What an escape adds to the string, the backslash and c having been read. */
    method GetEscape(c: char, ghost s: string, ghost acc: string, ghost last: char) returns (st: Status, more: string)
      requires Valid() && s == ['\\', c] + Left()
      modifies this`cur
      ensures Valid()
      ensures st.Fine? ==> cur == old(cur) + if c == 'u' then 4 else 0
      ensures st.Fine? ==> Scan(Left(), acc + more, c) == Scan(s, acc, last)
      ensures !st.Fine? ==> Scan(s, acc, last) == (if st == PastEnd then Tripped else Corrupt) && !st.NotModelled?
    {
      ScanStep(s, acc, last);
      EscapeSlices(s, c, Left());
      hide Scan, HexOf;
      st, more := Fine, "";
      if c == '\\' || c == '"' || c == '/' {
        more := [c];
      } else if c == 'b' {
        more := [8 as char];
      } else if c == 'f' {
        more := [12 as char];
      } else if c == 'n' {
        more := ['\n'];
      } else if c == 'r' {
        more := ['\r'];
      } else if c == 't' {
        more := ['\t'];
      } else if c == 'u' {
        var hex, icode := GetHex();
        if !hex.Fine? { return hex, ""; }
        if icode > 0xff { return Corruption, ""; }
        more := [icode as char];
      }
    }

    /** peek and i mark the run of plain characters not yet copied; acc has it copied. */
    method GetString(head: char) returns (st: Status, value: string)
      requires Valid() && head == '"'
      modifies this`cur
      ensures Valid() && Agrees(Json.GetString(old(Left())), st, value, Left())
      ensures st.Fine? ==> old(cur) <= cur
    {
      value := "";
      var peek: nat, i: nat := cur, 0;
      var c := 0 as char;
      ghost var acc := "";
      ghost var spec := Json.GetString(Left());
      while !HasEnd()
        invariant Valid() && old(cur) <= cur && cur == peek + i
        invariant acc == value + data[peek..peek + i]
        invariant Scan(Left(), acc, c) == spec
        decreases |data| - cur
      {
        ghost var s := Left();
        ScanStep(s, acc, c);
        LastDoesNotMatter(s, acc, c, '\\');
        hide Scan, HexOf, IsSpace, Unescaped, Json.GetString;
        c := Read();
        if c == '\\' {
          value := value + data[peek..peek + i];
          peek := peek + i + 2;
          i := 0;
          if HasEnd() { break; }
          c := Read();
          assert s == ['\\', c] + Left();
          var hex, more := GetEscape(c, s, acc, '\\');
          if !hex.Fine? { return hex, ""; }
          if c == 'u' { peek := peek + 4; }
          value := value + more;
          acc := acc + more;
          NoRun(value, data, peek);
        } else if c == head {
          break;
        } else {
          assert Left() == s[1..];
          RunExtended(value, data, peek, i);
          i := i + 1;
          acc := acc + [c];
        }
      }
      if c != head { return Corruption, ""; }
      value := value + data[peek..peek + i];
      st := Fine;
    }

    method GetValue() returns (st: Status, v: Value)
      requires Valid()
      modifies this`cur
      ensures Valid() && Agrees(Json.GetValue(old(Left())), st, v, Left())
      ensures st.Fine? ==> old(cur) < cur
      decreases |data| - cur, 0
    {
      var c := SkipWhiteSpace();
      v := Str("");
      if c == '{' {
        st, v := GetObj();
      } else if c == '[' {
        st, v := GetArray();
      } else if c == '"' {
        var x;
        st, x := GetString(c);
        v := Str(x);
      } else if StartsOther(c) {
        st := NotModelled;
      } else {
        st := Corruption;
      }
    }

    method GetObj() returns (st: Status, v: Value)
      requires Valid()
      modifies this`cur
      ensures Valid() && Agrees(GetMembers(old(Left()), [], true), st, v, Left())
      ensures st.Fine? ==> old(cur) <= cur
      decreases |data| - cur, 1
    {
      var members, isFirst := [], true;
      v := Str("");
      ghost var spec := GetMembers(Left(), [], true);
      while true
        invariant Valid() && old(cur) <= cur
        invariant GetMembers(Left(), members, isFirst) == spec
        decreases |data| - cur
      {
        var c := SkipWhiteSpace();
        if c == '}' && isFirst { return Fine, Obj(members); }
        isFirst := false;
        if c != '"' { return Corruption, v; }
        var key, temp;
        st, key := GetString('"');
        if !st.Fine? { return; }
        c := SkipWhiteSpace();
        if c != ':' { return Corruption, v; }
        st, temp := GetValue();
        if !st.Fine? { return; }
        members := Put(members, key, temp);
        c := SkipWhiteSpace();
        if c != ',' {
          if c == '}' { return Fine, Obj(members); }
          return Corruption, v;
        }
      }
    }

    method GetArray() returns (st: Status, v: Value)
      requires Valid()
      modifies this`cur
      ensures Valid() && Agrees(Json.GetArray(old(Left())), st, v, Left())
      ensures st.Fine? ==> old(cur) <= cur
      decreases |data| - cur, 2
    {
      var items, isFirst := [], true;
      v := Str("");
      ghost var spec := Json.GetArray(Left());
      var c := SkipWhiteSpace();
      while !HasEnd()
        invariant Valid() && old(cur) <= cur
        invariant isFirst && !HasEnd() ==> old(cur) < cur && c == data[cur - 1]
        invariant isFirst ==> items == [] && (c, Left()) == Skip(old(Left()))
        invariant !isFirst ==> GetItems(Left(), items) == spec
        decreases |data| - cur, isFirst
      {
        if isFirst {
          if c == ']' { return Fine, Arr(items); }
          Back();
        }
        isFirst := false;
        assert GetItems(Left(), items) == spec;
        var value;
        st, value := GetValue();
        if !st.Fine? { return; }
        items := items + [value];
        c := SkipWhiteSpace();
        if c != ',' {
          if c == ']' { return Fine, Arr(items); }
          return Corruption, v;
        }
      }
      st := Corruption;
    }
  }

  lemma RunExtended(value: string, data: string, peek: nat, i: nat)
    requires peek + i < |data|
    ensures value + data[peek..peek + i] + [data[peek + i]] == value + data[peek..peek + i + 1]
  {
  }

  lemma EscapeSlices(s: string, c: char, t: string)
    requires s == ['\\', c] + t
    ensures s[0] == '\\' && s[1] == c && s[2..] == t
    ensures |t| >= 4 ==> s[2..6] == t[..4] && s[6..] == t[4..]
  {
  }

  lemma NoRun(value: string, data: string, peek: nat)
    requires peek <= |data|
    ensures value + data[peek..peek + 0] == value
  {
  }

  lemma HexOfNext(s: string, code: nat)
    requires s != []
    ensures HexOf(s, code) ==
      HexOf(s[1..], if HexValue(s[0]) >= 0 then (code * 16 + HexValue(s[0])) % 0x1_0000 else code)
  {
  }

  /** One turn of the loop that gathers a string. */
  lemma ScanStep(s: string, acc: string, last: char)
    requires s != []
    ensures s[0] == '"' ==> Scan(s, acc, last) == Ok(acc, s[1..])
    ensures s[0] != '"' && s[0] != '\\' ==> Scan(s, acc, last) == Scan(s[1..], acc + [s[0]], s[0])
    ensures s[0] == '\\' && |s| == 1 ==> Scan(s, acc, last) == Corrupt
    ensures s[0] == '\\' && |s| > 1 && s[1] != 'u' ==>
      Scan(s, acc, last) == Scan(s[2..], acc + Unescaped(s[1]), s[1])
    ensures s[0] == '\\' && |s| > 1 && s[1] == 'u' ==>
      Scan(s, acc, last) ==
        (if |s| < 6 then Tripped
         else if HexOf(s[2..6], 0) > 0xff then Corrupt
         else Scan(s[6..], acc + [HexOf(s[2..6], 0) as char], 'u'))
  {
  }

  /** Json::Stringify and Json::Parse, one after the other. */
  method StringifyThenParse(v: Value) returns (st: Status, w: Value)
    requires WellFormed(v)
    ensures st.Fine? && w == v <==> v != Arr([])
  {
    var writer := new JsonWriter();
    writer.Stringify(v);
    var reader := new JsonReader(writer.result);
    ParseStringify(v);
    assert reader.Left() == Written(v);
    st, w := reader.GetValue();
  }
}
