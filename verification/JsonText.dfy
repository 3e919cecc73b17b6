/** What a printed JSON value says: the text determines the value. */
module JsonText {
  import opened JsonCompaction
  import opened Seqs

  /** What may follow a value inside a text. */
  predicate Ends(x: string) { x == "" || x[0] == ',' || x[0] == ']' || x[0] == '}' }

  predicate NumeralStart(c: char) { '0' <= c <= '9' || c == '-' || c == 'N' || c == 'I' }

  /** The text of a number, of NaN or of an infinity: all that is used is how it starts and that it ends before a
      comma or a bracket. */
  predicate Numeral(text: string) {
    && text != "" && NumeralStart(text[0])
    && forall i | 0 <= i < |text| :: text[i] != ',' && text[i] != ']' && text[i] != '}'
  }

  /** Every number of the value prints as a numeral. */
  predicate Numeric(j: Json)
    decreases j, 1
  {
    match j
    case Number(text) => Numeral(text)
    case List(items) => AllNumeric(items)
    case Object(fields) => FieldsNumeric(fields)
    case _ => true
  }

  predicate AllNumeric(items: seq<Json>)
    decreases items, 0
  {
    items == [] || (Numeric(items[0]) && AllNumeric(items[1..]))
  }

  predicate FieldsNumeric(fields: seq<Field>)
    decreases fields, 0
  {
    fields == [] || (Numeric(fields[0].value) && FieldsNumeric(fields[1..]))
  }

  lemma Cancel(front: string, x: string, y: string)
    requires front + x == front + y
    ensures x == y
  {
    assert (front + x)[|front|..] == x && (front + y)[|front|..] == y;
  }

  // ----------------------------------------------------------------- strings

  lemma SameFront(a: string, b: string, x: string, y: string, i: nat)
    requires a + x == b + y && i < |a| && i < |b|
    ensures a[i] == b[i]
  {
    assert (a + x)[i] == a[i] && (b + y)[i] == b[i];
  }

  lemma SameLength(a: string, b: string, x: string, y: string)
    requires a + x == b + y && |a| == |b|
    ensures a == b && x == y
  {
    assert (a + x)[..|a|] == a && (b + y)[..|b|] == b;
    Cancel(a, x, y);
  }

  /** The backslash and the character after it tell how long an escape is. */
  lemma EscapeForm(c: char)
    ensures var e := Escape(c);
      && e != ""
      && (e[0] != '\\' ==> e == [c] && c != '\"')
      && (e[0] == '\\' ==> |e| >= 2 && |e| == if e[1] == 'u' then 6 else 2)
  {
  }

  lemma HexUnique(i: nat, j: nat)
    requires i < 16 && j < 16 && HEX[i] == HEX[j]
    ensures i == j
  {
  }

  lemma HexDigits(c: char)
    requires |Escape(c)| == 6
    ensures 0 <= c as int < 32 && Escape(c)[4] == HEX[c as int / 16] && Escape(c)[5] == HEX[c as int % 16]
  {
  }

  lemma EscapeInjective(c: char, d: char)
    requires Escape(c) == Escape(d)
    ensures c == d
  {
    EscapeForm(c);
    var e := Escape(c);
    if e[0] == '\\' && e[1] == 'u' {
      HexDigits(c);
      HexDigits(d);
      HexUnique(c as int / 16, d as int / 16);
      HexUnique(c as int % 16, d as int % 16);
    }
  }

  /** No escape is the beginning of another. */
  lemma EscapeUnique(c: char, d: char, x: string, y: string)
    requires Escape(c) + x == Escape(d) + y
    ensures c == d && x == y
  {
    EscapeForm(c);
    EscapeForm(d);
    SameFront(Escape(c), Escape(d), x, y, 0);
    if Escape(c)[0] == '\\' { SameFront(Escape(c), Escape(d), x, y, 1); }
    SameLength(Escape(c), Escape(d), x, y);
    EscapeInjective(c, d);
  }

  /** An escaped string, its closing quote, and what follows. */
  function Closed(s: string, x: string): string { EscapeAll(s) + ("\"" + x) }

  lemma ClosedHead(s: string, x: string)
    requires s != ""
    ensures Closed(s, x) == Escape(s[0]) + Closed(s[1..], x)
    ensures Closed(s, x)[0] == Escape(s[0])[0] != '\"'
  {
    EscapeForm(s[0]);
    Associative(Escape(s[0]), EscapeAll(s[1..]), "\"" + x);
  }

  lemma ClosedStarts(s: string, x: string)
    ensures Closed(s, x) != "" && (Closed(s, x)[0] == '\"' <==> s == "")
  {
    if s != "" { ClosedHead(s, x); }
  }

  lemma {:induction false} ClosedUnique(s: string, t: string, x: string, y: string)
    requires Closed(s, x) == Closed(t, y)
    ensures s == t && x == y
  {
    ClosedStarts(s, x);
    ClosedStarts(t, y);
    if s == "" {
      NothingMore("\"" + x, "");
      NothingMore("\"" + y, "");
      Cancel("\"", x, y);
    } else {
      ClosedHead(s, x);
      ClosedHead(t, y);
      EscapeUnique(s[0], t[0], Closed(s[1..], x), Closed(t[1..], y));
      ClosedUnique(s[1..], t[1..], x, y);
      HeadTail(s);
      HeadTail(t);
    }
  }

  lemma QuoteIsClosed(s: string, x: string)
    ensures Quote(s) + x == "\"" + Closed(s, x)
  {
    Associative("\"" + EscapeAll(s), "\"", x);
    Associative("\"", EscapeAll(s), "\"" + x);
  }

  lemma QuoteUnique(s: string, t: string, x: string, y: string)
    requires Quote(s) + x == Quote(t) + y
    ensures s == t && x == y
  {
    QuoteIsClosed(s, x);
    QuoteIsClosed(t, y);
    Cancel("\"", Closed(s, x), Closed(t, y));
    ClosedUnique(s, t, x, y);
  }

  // ----------------------------------------------------------------- numbers

  /** Where a numeral is broken off, something follows that ends no value. */
  lemma BrokenNumeral(s: string, t: string, x: string, y: string)
    requires Numeral(t) && |s| < |t| && s + x == t + y
    ensures !Ends(x)
  {
    assert |s + x| == |t + y|;
    assert (s + x)[|s|] == x[0] && (t + y)[|s|] == t[|s|];
  }

  lemma NumeralUnique(s: string, t: string, x: string, y: string)
    requires Numeral(s) && Numeral(t) && Ends(x) && Ends(y) && s + x == t + y
    ensures s == t && x == y
  {
    if |s| < |t| {
      BrokenNumeral(s, t, x, y);
    } else if |t| < |s| {
      BrokenNumeral(t, s, y, x);
    } else {
      SameLength(s, t, x, y);
    }
  }

  // ------------------------------------------------------------------ values

  /** The first character tells the kind of value. */
  lemma Starts(j: Json)
    requires Numeric(j)
    ensures Print(j) != ""
    ensures var c := Print(j)[0];
      match j
      case Null => c == 'n'
      case Bool(b) => c == if b then 't' else 'f'
      case Number(_) => NumeralStart(c)
      case Str(_) => c == '\"'
      case List(_) => c == '['
      case Object(_) => c == '{'
  {
  }

  lemma SameKind(a: Json, b: Json, x: string, y: string)
    requires Numeric(a) && Numeric(b) && Print(a) + x == Print(b) + y
    ensures match a
            case Null => b.Null?
            case Bool(p) => b == Bool(p)
            case Number(_) => b.Number?
            case Str(_) => b.Str?
            case List(_) => b.List?
            case Object(_) => b.Object?
  {
    Starts(a);
    Starts(b);
    SameFront(Print(a), Print(b), x, y, 0);
  }

  /** The items, the closing bracket, and what follows. */
  function ClosedItems(items: seq<Json>, x: string): string { PrintItems(items) + ("]" + x) }

  /** What follows the first item. */
  function AfterItem(items: seq<Json>, x: string): string
    requires items != []
  {
    if |items| == 1 then "]" + x else ", " + ClosedItems(items[1..], x)
  }

  lemma ItemFirst(items: seq<Json>, x: string)
    requires items != []
    ensures ClosedItems(items, x) == Print(items[0]) + AfterItem(items, x)
    ensures Ends(AfterItem(items, x))
  {
    var first, more := Print(items[0]), PrintItems(items[1..]);
    if |items| == 1 {
      NothingMore(first, "");
    } else {
      Associative(first + ", ", more, "]" + x);
      Associative(first, ", ", more + ("]" + x));
    }
  }

  lemma AfterItemUnique(a: seq<Json>, b: seq<Json>, x: string, y: string)
    requires a != [] && b != [] && AfterItem(a, x) == AfterItem(b, y)
    ensures |a| == 1 <==> |b| == 1
    ensures |a| == 1 ==> x == y && a[1..] == b[1..]
    ensures |a| > 1 ==> ClosedItems(a[1..], x) == ClosedItems(b[1..], y)
  {
    assert AfterItem(a, x)[0] == AfterItem(b, y)[0];
    if |a| == 1 {
      Cancel("]", x, y);
    } else {
      Cancel(", ", ClosedItems(a[1..], x), ClosedItems(b[1..], y));
    }
  }

  /** The fields, the closing brace, and what follows. */
  function ClosedFields(fields: seq<Field>, x: string): string { PrintFields(fields) + ("}" + x) }

  /** What follows the value of the first field. */
  function AfterField(fields: seq<Field>, x: string): string
    requires fields != []
  {
    if |fields| == 1 then "}" + x else ", " + ClosedFields(fields[1..], x)
  }

  function AfterKey(fields: seq<Field>, x: string): string
    requires fields != []
  {
    ": " + (Print(fields[0].value) + AfterField(fields, x))
  }

  lemma FieldFirst(fields: seq<Field>, x: string)
    requires fields != []
    ensures ClosedFields(fields, x) == Quote(fields[0].key) + AfterKey(fields, x)
    ensures Ends(AfterField(fields, x))
  {
    var key, value, more := Quote(fields[0].key), Print(fields[0].value), PrintFields(fields[1..]);
    if |fields| == 1 {
      NothingMore(key + ": " + value, "");
      Associative(key + ": ", value, "}" + x);
    } else {
      Associative(key + ": " + value + ", ", more, "}" + x);
      Associative(key + ": " + value, ", ", more + ("}" + x));
      Associative(key + ": ", value, AfterField(fields, x));
    }
    Associative(key, ": ", value + AfterField(fields, x));
  }

  lemma AfterFieldUnique(a: seq<Field>, b: seq<Field>, x: string, y: string)
    requires a != [] && b != [] && AfterField(a, x) == AfterField(b, y)
    ensures |a| == 1 <==> |b| == 1
    ensures |a| == 1 ==> x == y && a[1..] == b[1..]
    ensures |a| > 1 ==> ClosedFields(a[1..], x) == ClosedFields(b[1..], y)
  {
    assert AfterField(a, x)[0] == AfterField(b, y)[0];
    if |a| == 1 {
      Cancel("}", x, y);
    } else {
      Cancel(", ", ClosedFields(a[1..], x), ClosedFields(b[1..], y));
    }
  }

  lemma ListIsClosed(items: seq<Json>, x: string)
    ensures Print(List(items)) + x == "[" + ClosedItems(items, x)
  {
    Associative("[" + PrintItems(items), "]", x);
    Associative("[", PrintItems(items), "]" + x);
  }

  lemma ObjectIsClosed(fields: seq<Field>, x: string)
    ensures Print(Object(fields)) + x == "{" + ClosedFields(fields, x)
  {
    Associative("{" + PrintFields(fields), "}", x);
    Associative("{", PrintFields(fields), "}" + x);
  }

  /** No value is printed as the beginning of another, but for what may follow a value. */
  lemma {:induction false} PrintUnique(a: Json, b: Json, x: string, y: string)
    requires Numeric(a) && Numeric(b) && Ends(x) && Ends(y) && Print(a) + x == Print(b) + y
    ensures a == b && x == y
    decreases a, 1
  {
    SameKind(a, b, x, y);
    match a
    case Null => Cancel(Print(a), x, y);
    case Bool(_) => Cancel(Print(a), x, y);
    case Number(text) => NumeralUnique(text, b.text, x, y);
    case Str(s) => QuoteUnique(s, b.s, x, y);
    case List(items) =>
      ListIsClosed(items, x);
      ListIsClosed(b.items, y);
      Cancel("[", ClosedItems(items, x), ClosedItems(b.items, y));
      ItemsUnique(items, b.items, x, y);
    case Object(fields) =>
      ObjectIsClosed(fields, x);
      ObjectIsClosed(b.fields, y);
      Cancel("{", ClosedFields(fields, x), ClosedFields(b.fields, y));
      FieldsUnique(fields, b.fields, x, y);
  }

  lemma ItemStarts(items: seq<Json>, x: string)
    requires AllNumeric(items)
    ensures ClosedItems(items, x) != "" && (ClosedItems(items, x)[0] == ']' <==> items == [])
  {
    if items != [] {
      ItemFirst(items, x);
      Starts(items[0]);
    }
  }

  lemma {:induction false} ItemsUnique(a: seq<Json>, b: seq<Json>, x: string, y: string)
    requires AllNumeric(a) && AllNumeric(b) && ClosedItems(a, x) == ClosedItems(b, y)
    ensures a == b && x == y
    decreases a, 0
  {
    ItemStarts(a, x);
    ItemStarts(b, y);
    if a == [] {
      NothingMore("]" + x, "");
      NothingMore("]" + y, "");
      Cancel("]", x, y);
    } else {
      ItemFirst(a, x);
      ItemFirst(b, y);
      PrintUnique(a[0], b[0], AfterItem(a, x), AfterItem(b, y));
      AfterItemUnique(a, b, x, y);
      if |a| > 1 { ItemsUnique(a[1..], b[1..], x, y); }
      HeadTail(a);
      HeadTail(b);
    }
  }

  lemma FieldStarts(fields: seq<Field>, x: string)
    ensures ClosedFields(fields, x) != "" && (ClosedFields(fields, x)[0] == '}' <==> fields == [])
  {
    if fields != [] { FieldFirst(fields, x); }
  }

  lemma {:induction false} FieldsUnique(a: seq<Field>, b: seq<Field>, x: string, y: string)
    requires FieldsNumeric(a) && FieldsNumeric(b) && ClosedFields(a, x) == ClosedFields(b, y)
    ensures a == b && x == y
    decreases a, 0
  {
    FieldStarts(a, x);
    FieldStarts(b, y);
    if a == [] {
      NothingMore("}" + x, "");
      NothingMore("}" + y, "");
      Cancel("}", x, y);
    } else {
      KeysUnique(a, b, x, y);
      PrintUnique(a[0].value, b[0].value, AfterField(a, x), AfterField(b, y));
      AfterFieldUnique(a, b, x, y);
      if |a| > 1 { FieldsUnique(a[1..], b[1..], x, y); }
      HeadTail(a);
      HeadTail(b);
    }
  }

  lemma KeysUnique(a: seq<Field>, b: seq<Field>, x: string, y: string)
    requires a != [] && b != [] && ClosedFields(a, x) == ClosedFields(b, y)
    ensures a[0].key == b[0].key
    ensures Print(a[0].value) + AfterField(a, x) == Print(b[0].value) + AfterField(b, y)
    ensures Ends(AfterField(a, x)) && Ends(AfterField(b, y))
  {
    FieldFirst(a, x);
    FieldFirst(b, y);
    QuoteUnique(a[0].key, b[0].key, AfterKey(a, x), AfterKey(b, y));
    Cancel(": ", Print(a[0].value) + AfterField(a, x), Print(b[0].value) + AfterField(b, y));
  }

  /** The printed text determines the value: no two values print alike. */
  lemma PrintIsInjective(a: Json, b: Json)
    requires Numeric(a) && Numeric(b) && Print(a) == Print(b)
    ensures a == b
  {
    NothingMore(Print(a), "");
    NothingMore(Print(b), "");
    PrintUnique(a, b, "", "");
  }
}
