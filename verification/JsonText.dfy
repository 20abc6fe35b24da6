/**
 * The text `JSON.stringify` gives a JSON value, and the proof that it determines the value.
 * Duplicate dictionary entries are found by comparing such texts.
 */
module JsonText {
  import opened Text
  import opened JsonValues
  import opened Decimal

  /** A value JSON can express: no `Long` anywhere. */
  predicate IsPlain(j: Json) {
    match j
    case Atom(_) => true
    case Long(_) => false
    case Arr(elems) => forall e | e in elems :: IsPlain(e)
    case Obj(fields) => ArePlain(fields)
  }

  predicate ArePlain(fields: Fields) {
    match fields
    case Empty => true
    case Field(_, v, rest) => IsPlain(v) && ArePlain(rest)
  }

  lemma {:induction false} PlainField(key: string, value: Json, rest: Fields)
    requires IsPlain(value) && ArePlain(rest)
    ensures ArePlain(Field(key, value, rest)) && IsPlain(Obj(Field(key, value, rest)))
  {
  }

  type Plain = j: Json | IsPlain(j) witness Atom(Null)

  // ----- concatenation

  lemma Cancel<T>(a: seq<T>, x: seq<T>, y: seq<T>)
    requires a + x == a + y
    ensures x == y
  {
    assert x == (a + x)[|a|..] && y == (a + y)[|a|..];
  }

  lemma SameHead<T>(a: seq<T>, b: seq<T>, x: seq<T>, y: seq<T>)
    requires |a| > 0 && |b| > 0 && a + x == b + y
    ensures a[0] == b[0]
  {
    assert (a + x)[0] == a[0] && (b + y)[0] == b[0];
  }

  // ----- strings

  function Hex(d: nat): char
    requires d < 16
  {
    if d < 10 then '0' + d as char else 'a' + (d - 10) as char
  }

  function Escape(c: char): string {
    if c == '\"' then "\\\""
    else if c == '\\' then "\\\\"
    else if c == '\U{08}' then "\\b"
    else if c == '\U{0C}' then "\\f"
    else if c == '\n' then "\\n"
    else if c == '\r' then "\\r"
    else if c == '\t' then "\\t"
    else if c < ' ' then "\\u00" + [Hex(c as nat / 16), Hex(c as nat % 16)]
    else [c]
  }

  /** The characters of `s`, escaped, up to and including the closing quote. */
  function Quoted(s: string): string {
    if s == "" then "\"" else Escape(s[0]) + Quoted(s[1..])
  }

  lemma EscapeHead(c: char)
    ensures |Escape(c)| > 0 && Escape(c)[0] != '\"'
    ensures |Escape(c)| == 1 <==> Escape(c)[0] != '\\'
  {
  }

  lemma HexInjective(a: nat, b: nat)
    requires a < 16 && b < 16 && Hex(a) == Hex(b)
    ensures a == b
  {
  }

  lemma EscapeDetermines(c: char, d: char, x: string, y: string)
    requires Escape(c) + x == Escape(d) + y
    ensures c == d && x == y
  {
    var u, v := Escape(c) + x, Escape(d) + y;
    EscapeHead(c);
    EscapeHead(d);
    assert u[0] == Escape(c)[0] && v[0] == Escape(d)[0];
    if |Escape(c)| > 1 {
      assert u[1] == Escape(c)[1] && v[1] == Escape(d)[1];
      if Escape(c)[1] == 'u' {
        assert u[4] == Escape(c)[4] && v[4] == Escape(d)[4];
        assert u[5] == Escape(c)[5] && v[5] == Escape(d)[5];
        HexInjective(c as nat / 16, d as nat / 16);
        HexInjective(c as nat % 16, d as nat % 16);
        assert c as nat == d as nat;
      }
    }
    assert c == d;
    assert x == u[|Escape(c)|..] && y == v[|Escape(d)|..];
  }

  lemma {:induction false} QuotedStep(s: string, x: string)
    requires s != ""
    ensures Quoted(s) + x == Escape(s[0]) + (Quoted(s[1..]) + x)
    ensures (Quoted(s) + x)[0] != '\"'
  {
    EscapeHead(s[0]);
    Associate(Escape(s[0]), Quoted(s[1..]), x);
  }

  lemma {:induction false} QuotedDetermines(s: string, t: string, x: string, y: string)
    requires Quoted(s) + x == Quoted(t) + y
    ensures s == t && x == y
  {
    if s != "" && t != "" {
      QuotedStep(s, x);
      QuotedStep(t, y);
      EscapeDetermines(s[0], t[0], Quoted(s[1..]) + x, Quoted(t[1..]) + y);
      QuotedDetermines(s[1..], t[1..], x, y);
      assert s == [s[0]] + s[1..] && t == [t[0]] + t[1..];
    } else if s != "" {
      QuotedStep(s, x);
    } else if t != "" {
      QuotedStep(t, y);
    } else {
      Cancel("\"", x, y);
    }
  }

  // ----- values

  function Stringify(j: Plain): string
    decreases j, 0
  {
    match j
    case Atom(Null) => "null"
    case Atom(Bool(b)) => if b then "true" else "false"
    case Atom(Num(n)) => Print(n)
    case Atom(Str(s)) => "\"" + Quoted(s)
    case Arr(elems) => "[" + Elements(elems)
    case Obj(fields) => "{" + Members(fields)
  }

  function Elements(elems: seq<Plain>): string
    decreases elems, 1
  {
    if elems == [] then "]"
    else if |elems| == 1 then Stringify(elems[0]) + "]"
    else Stringify(elems[0]) + "," + Elements(elems[1..])
  }

  function Members(fields: Fields): string
    requires ArePlain(fields)
    decreases fields, 1
  {
    match fields
    case Empty => "}"
    case Field(k, v, rest) =>
      "\"" + Quoted(k) + ":" + Stringify(v) + (if rest.Empty? then "}" else "," + Members(rest))
  }

  /** Nothing that could continue a number. */
  predicate Ends(s: string) {
    s == "" || !IsDigit(s[0])
  }

  lemma {:induction false} Head(j: Plain)
    ensures |Stringify(j)| > 0
    ensures var c := Stringify(j)[0];
            match j
            case Atom(Null) => c == 'n'
            case Atom(Bool(b)) => c == if b then 't' else 'f'
            case Atom(Num(_)) => c == '-' || IsDigit(c)
            case Atom(Str(_)) => c == '\"'
            case Arr(_) => c == '['
            case Obj(_) => c == '{'
  {
    match j
    case Atom(Num(n)) => DigitsAreDigits(if n < 0 then -n else n);
    case _ =>
  }

  lemma {:induction false} SameShape(a: Plain, b: Plain, x: string, y: string)
    requires Stringify(a) + x == Stringify(b) + y
    ensures match a
            case Atom(Null) => b == a
            case Atom(Bool(_)) => b == a
            case Atom(Num(_)) => b.Atom? && b.leaf.Num?
            case Atom(Str(_)) => b.Atom? && b.leaf.Str?
            case Arr(_) => b.Arr?
            case Obj(_) => b.Obj?
  {
    Head(a);
    Head(b);
    SameHead(Stringify(a), Stringify(b), x, y);
  }

  lemma Unprefix(c: char, a: string, b: string, x: string, y: string)
    requires ([c] + a) + x == ([c] + b) + y
    ensures a + x == b + y
  {
    Associate([c], a, x);
    Associate([c], b, y);
    Cancel([c], a + x, b + y);
  }

  /** Two texts with tails agree only if the values do. */
  lemma {:induction false} TextDetermines(a: Plain, b: Plain, x: string, y: string)
    requires Ends(x) && Ends(y)
    requires Stringify(a) + x == Stringify(b) + y
    ensures a == b
    decreases a, 0
  {
    SameShape(a, b, x, y);
    match a {
      case Atom(Null) =>
      case Atom(Bool(_)) =>
      case Atom(Num(n)) =>
        ParsePrint(n, x);
        ParsePrint(b.leaf.n, y);
      case Atom(Str(s)) =>
        Unprefix('\"', Quoted(s), Quoted(b.leaf.s), x, y);
        QuotedDetermines(s, b.leaf.s, x, y);
      case Arr(elems) =>
        Unprefix('[', Elements(elems), Elements(b.elems), x, y);
        ElementsDetermine(elems, b.elems, x, y);
      case Obj(fields) =>
        Unprefix('{', Members(fields), Members(b.fields), x, y);
        MembersDetermine(fields, b.fields, x, y);
    }
  }

  /** What follows the first of several elements. */
  function AfterFirst(elems: seq<Plain>): string
    requires elems != []
  {
    if |elems| == 1 then "]" else "," + Elements(elems[1..])
  }

  lemma {:induction false} ElementsSplit(elems: seq<Plain>, x: string)
    requires elems != []
    ensures Elements(elems) + x == Stringify(elems[0]) + (AfterFirst(elems) + x)
    ensures (Elements(elems) + x)[0] != ']'
    ensures Ends(AfterFirst(elems) + x)
  {
    Head(elems[0]);
    if |elems| > 1 {
      Associate(Stringify(elems[0]), ",", Elements(elems[1..]));
    }
    Associate(Stringify(elems[0]), AfterFirst(elems), x);
  }

  lemma {:induction false} ElementsDetermine(a: seq<Plain>, b: seq<Plain>, x: string, y: string)
    requires Elements(a) + x == Elements(b) + y
    ensures a == b
    decreases a, 1
  {
    if a != [] && b != [] {
      ElementsSplit(a, x);
      ElementsSplit(b, y);
      TextDetermines(a[0], b[0], AfterFirst(a) + x, AfterFirst(b) + y);
      Cancel(Stringify(a[0]), AfterFirst(a) + x, AfterFirst(b) + y);
      SameHead(AfterFirst(a), AfterFirst(b), x, y);
      if |a| > 1 {
        Unprefix(',', Elements(a[1..]), Elements(b[1..]), x, y);
        ElementsDetermine(a[1..], b[1..], x, y);
      }
      assert a == [a[0]] + a[1..] && b == [b[0]] + b[1..];
    } else if a != [] {
      ElementsSplit(a, x);
    } else if b != [] {
      ElementsSplit(b, y);
    }
  }

  /** What follows the first of several members. */
  function AfterMember(fields: Fields): string
    requires fields.Field? && ArePlain(fields)
  {
    if fields.rest.Empty? then "}" else "," + Members(fields.rest)
  }

  lemma {:induction false} MembersSplit(fields: Fields, x: string)
    requires fields.Field? && ArePlain(fields)
    ensures Members(fields) + x ==
            ("\"" + Quoted(fields.key)) + (":" + (Stringify(fields.value) + (AfterMember(fields) + x)))
    ensures (Members(fields) + x)[0] == '\"'
    ensures Ends(AfterMember(fields) + x)
  {
    var q, t, r := "\"" + Quoted(fields.key), Stringify(fields.value), AfterMember(fields);
    assert Members(fields) == q + ":" + t + r;
    Associate(q + ":" + t, r, x);
    Associate(q + ":", t, r + x);
    Associate(q, ":", t + (r + x));
  }

  lemma {:induction false} MembersDetermine(a: Fields, b: Fields, x: string, y: string)
    requires ArePlain(a) && ArePlain(b)
    requires Members(a) + x == Members(b) + y
    ensures a == b
    decreases a, 1
  {
    if a.Field? && b.Field? {
      MembersSplit(a, x);
      MembersSplit(b, y);
      var p, q := Stringify(a.value) + (AfterMember(a) + x), Stringify(b.value) + (AfterMember(b) + y);
      Unprefix('\"', Quoted(a.key), Quoted(b.key), ":" + p, ":" + q);
      QuotedDetermines(a.key, b.key, ":" + p, ":" + q);
      Cancel(":", p, q);
      TextDetermines(a.value, b.value, AfterMember(a) + x, AfterMember(b) + y);
      Cancel(Stringify(a.value), AfterMember(a) + x, AfterMember(b) + y);
      SameHead(AfterMember(a), AfterMember(b), x, y);
      if a.rest.Field? {
        Unprefix(',', Members(a.rest), Members(b.rest), x, y);
        MembersDetermine(a.rest, b.rest, x, y);
      }
    } else if a.Field? {
      MembersSplit(a, x);
    } else if b.Field? {
      MembersSplit(b, y);
    }
  }

  /** The texts of leaves and of empty and two-element containers, written out. */
  lemma {:induction false} TextShapes(k: string, l: string, v: Plain, w: Plain)
    ensures Stringify(Atom(Null)) == "null" && Stringify(Atom(Bool(true))) == "true"
    ensures Stringify(Atom(Bool(false))) == "false" && Stringify(Atom(Str(""))) == "\"\""
    ensures Stringify(Arr([])) == "[]" && Stringify(Obj(Empty)) == "{}"
    ensures Stringify(Arr([v, w])) == "[" + (Stringify(v) + "," + (Stringify(w) + "]"))
    ensures ArePlain(Field(k, v, Field(l, w, Empty)))
    ensures Stringify(Obj(Field(k, v, Field(l, w, Empty)))) ==
            "{" + (Stringify(Atom(Str(k))) + ":" + Stringify(v)
                   + ("," + (Stringify(Atom(Str(l))) + ":" + Stringify(w) + "}")))
  {
    var vs: seq<Plain> := [v, w];
    assert vs[1..] == [w];
    assert Elements([w]) == Stringify(w) + "]";
    PlainField(l, w, Empty);
    PlainField(k, v, Field(l, w, Empty));
    assert Members(Field(l, w, Empty)) == "\"" + Quoted(l) + ":" + Stringify(w) + "}";
  }

  /** The characters JSON escapes, by code point, and all others as they are. */
  lemma EscapesByCode(c: char)
    ensures c as int == 34 || c as int == 92 ==> Escape(c) == "\\" + [c]
    ensures c as int == 8 ==> Escape(c) == "\\b"
    ensures c as int == 9 ==> Escape(c) == "\\t"
    ensures c as int == 10 ==> Escape(c) == "\\n"
    ensures c as int == 12 ==> Escape(c) == "\\f"
    ensures c as int == 13 ==> Escape(c) == "\\r"
    ensures c as int == 31 ==> Escape(c) == "\\u001f"
    ensures c as int >= 32 && c as int != 34 && c as int != 92 ==> Escape(c) == [c]
  {
  }
}
