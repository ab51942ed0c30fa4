/**
 What a JSON document is after a round through the database: JSONB keeps the members of an object
 by key length in bytes, then bytewise, the last of equal keys winning, and the JavaScript object
 read from it lists array-index keys first. Which documents come back as they went in is exact.
 */
module Jsonb {
  import opened Text
  import opened Json
  import opened Encoding

  // ------------------------------------------------------------------ key order

  predicate LessBytes(a: seq<Byte>, b: seq<Byte>) {
    if a == [] || b == [] then b != [] && a == []
    else a[0] < b[0] || (a[0] == b[0] && LessBytes(a[1..], b[1..]))
  }

  predicate Shorter(a: seq<Byte>, b: seq<Byte>) { |a| < |b| || (|a| == |b| && LessBytes(a, b)) }

  function Decimal(s: string): nat
    requires forall i :: 0 <= i < |s| ==> IsDigit(s[i])
  {
    if s == "" then 0
    else
      assert IsDigit(s[|s| - 1]);
      10 * Decimal(s[..|s| - 1]) + (s[|s| - 1] as int - '0' as int)
  }

  /** A canonical array index: what a JavaScript object lists before its other keys. */
  predicate IsIndex(key: string) {
    && key != "" && (forall i :: 0 <= i < |key| ==> IsDigit(key[i])) && (|key| > 1 ==> key[0] != '0')
    && Decimal(key) < 0xFFFF_FFFF
  }

  /**
   The order in which a stored object's keys are listed once read. Array indices come first in
   ascending order, which for canonical decimals is again the shorter first, then bytewise.
   */
  predicate Before(a: string, b: string) {
    if IsIndex(a) != IsIndex(b) then IsIndex(a) else Shorter(Utf8(a), Utf8(b))
  }

  lemma {:induction false} LessTotal(a: seq<Byte>, b: seq<Byte>)
    ensures a == b || LessBytes(a, b) || LessBytes(b, a)
    ensures !(LessBytes(a, b) && LessBytes(b, a)) && !LessBytes(a, a)
    decreases |a|
  {
    if a != [] {
      LessTotal(a[1..], if b == [] then [] else b[1..]);
      if b != [] && a[0] == b[0] && a[1..] == b[1..] { assert a == [a[0]] + a[1..] && b == [b[0]] + b[1..]; }
    }
  }

  lemma {:induction false} LessTransitive(a: seq<Byte>, b: seq<Byte>, c: seq<Byte>)
    requires LessBytes(a, b) && LessBytes(b, c)
    ensures LessBytes(a, c)
    decreases |a|
  {
    if a != [] && a[0] == b[0] == c[0] { LessTransitive(a[1..], b[1..], c[1..]); }
  }

  lemma BeforeTotal(a: string, b: string)
    ensures a == b || Before(a, b) || Before(b, a)
    ensures !(Before(a, b) && Before(b, a)) && !Before(a, a)
  {
    LessTotal(Utf8(a), Utf8(b));
    Utf8RoundTrip(a);
    Utf8RoundTrip(b);
  }

  lemma BeforeTransitive(a: string, b: string, c: string)
    requires Before(a, b) && Before(b, c)
    ensures Before(a, c)
  {
    if LessBytes(Utf8(a), Utf8(b)) && LessBytes(Utf8(b), Utf8(c)) { LessTransitive(Utf8(a), Utf8(b), Utf8(c)); }
  }

  predicate AllDigits(s: string) { forall i :: 0 <= i < |s| ==> IsDigit(s[i]) }

  function Bytes(s: string): (bs: seq<Byte>)
    requires AllDigits(s)
    ensures |bs| == |s|
  {
    seq(|s|, i requires 0 <= i < |s| => assert IsDigit(s[i]); s[i] as int)
  }

  lemma {:induction false} DigitBytes(s: string)
    requires AllDigits(s)
    ensures Utf8(s) == Bytes(s)
  {
    if s != "" {
      DigitBytes(s[1..]);
      assert IsDigit(s[0]) && Utf8Char(s[0]) == [s[0] as int];
      assert Bytes(s) == [s[0] as int] + Bytes(s[1..]);
    }
  }

  lemma {:induction false} LessLast(a: seq<Byte>, b: seq<Byte>, x: Byte, y: Byte)
    requires |a| == |b|
    ensures LessBytes(a + [x], b + [y]) <==> LessBytes(a, b) || (a == b && x < y)
  {
    if a == [] {
      assert a + [x] == [x] && b + [y] == [y];
    } else {
      LessLast(a[1..], b[1..], x, y);
      assert (a + [x])[1..] == a[1..] + [x] && (b + [y])[1..] == b[1..] + [y];
      assert a == [a[0]] + a[1..] && b == [b[0]] + b[1..];
    }
  }

  function Power(n: nat): nat { if n == 0 then 1 else 10 * Power(n - 1) }

  lemma {:induction false} PowerGrows(m: nat, n: nat)
    requires m <= n
    ensures 1 <= Power(m) <= Power(n)
  {
    if m < n { PowerGrows(m, n - 1); } else if n > 0 { PowerGrows(m - 1, n - 1); }
  }

  lemma {:induction false} DecimalRange(s: string)
    requires AllDigits(s)
    ensures Decimal(s) < Power(|s|)
    ensures s != "" && s[0] != '0' ==> Decimal(s) >= Power(|s| - 1)
  {
    if s != "" {
      assert IsDigit(s[|s| - 1]);
      DecimalRange(s[..|s| - 1]);
    }
  }

  /** Digits of one length compare as their numbers do. */
  lemma {:induction false} SameLengthOrder(a: string, b: string)
    requires AllDigits(a) && AllDigits(b) && |a| == |b|
    ensures LessBytes(Bytes(a), Bytes(b)) <==> Decimal(a) < Decimal(b)
    ensures Decimal(a) == Decimal(b) ==> a == b
    decreases |a|
  {
    if a != "" {
      var n := |a| - 1;
      var c, d := a[n], b[n];
      assert IsDigit(c) && IsDigit(d);
      SameLengthOrder(a[..n], b[..n]);
      SameLengthOrder(b[..n], a[..n]);
      assert Bytes(a) == Bytes(a[..n]) + [c as int] && Bytes(b) == Bytes(b[..n]) + [d as int];
      LessLast(Bytes(a[..n]), Bytes(b[..n]), c as int, d as int);
      assert a == a[..n] + [c] && b == b[..n] + [d];
      LessTotal(Bytes(a[..n]), Bytes(b[..n]));
    }
  }

  lemma LongerIsGreater(a: string, b: string)
    requires AllDigits(a) && AllDigits(b) && |a| < |b| && b[0] != '0'
    ensures Decimal(a) < Decimal(b)
  {
    DecimalRange(a);
    DecimalRange(b);
    PowerGrows(|a|, |b| - 1);
  }

  lemma DigitOrder(a: string, b: string)
    requires AllDigits(a) && AllDigits(b) && a != "" && b != ""
    requires (|a| > 1 ==> a[0] != '0') && (|b| > 1 ==> b[0] != '0')
    ensures Shorter(Bytes(a), Bytes(b)) <==> Decimal(a) < Decimal(b)
  {
    if |a| == |b| {
      SameLengthOrder(a, b);
    } else if |a| < |b| {
      LongerIsGreater(a, b);
    } else {
      LongerIsGreater(b, a);
    }
  }

  /** Among array indices the order is the numeric one. */
  lemma IndexOrder(a: string, b: string)
    requires IsIndex(a) && IsIndex(b)
    ensures Before(a, b) <==> Decimal(a) < Decimal(b)
  {
    DigitBytes(a);
    DigitBytes(b);
    DigitOrder(a, b);
  }

  lemma AppendDigit(init: string, c: char)
    requires AllDigits(init) && IsDigit(c)
    ensures AllDigits(init + [c]) && Decimal(init + [c]) == 10 * Decimal(init) + (c as int - '0' as int)
  {
    assert (init + [c])[..|init|] == init;
  }

  lemma DigitOf(d: nat)
    requires d < 10
    ensures IsDigit(DIGITS[d]) && DIGITS[d] as int - '0' as int == d
  {
  }

  lemma {:induction false} PrintedReads(n: nat)
    ensures var s := Text.Decimal(n);
            s != "" && AllDigits(s) && Decimal(s) == n && (|s| > 1 ==> s[0] != '0') && (n > 0 ==> s[0] != '0')
  {
    DigitOf(n % 10);
    if n < 10 {
      AppendDigit("", DIGITS[n]);
      assert Text.Decimal(n) == "" + [DIGITS[n]];
    } else {
      PrintedReads(n / 10);
      AppendDigit(Text.Decimal(n / 10), DIGITS[n % 10]);
    }
  }

  lemma PrintDigit(q: nat, c: char)
    requires IsDigit(c)
    ensures var d := c as int - '0' as int;
            && Text.Decimal(d) == [c] && (q >= 1 ==> Text.Decimal(10 * q + d) == Text.Decimal(q) + [c])
  {
    assert DIGITS[c as int - '0' as int] == c;
    var n := 10 * q + (c as int - '0' as int);
    assert n / 10 == q && n % 10 == c as int - '0' as int;
  }

  /** The last digit and the rest of a canonical decimal. */
  lemma SplitDecimal(s: string) returns (init: string, q: nat, c: char)
    requires |s| > 1 && AllDigits(s) && s[0] != '0'
    ensures s == init + [c] && init != "" && AllDigits(init) && init[0] != '0' && IsDigit(c)
    ensures Decimal(init) == q >= 1 && Decimal(s) == 10 * q + (c as int - '0' as int)
  {
    init, c := s[..|s| - 1], s[|s| - 1];
    q := Decimal(init);
    DecimalRange(init);
    PowerGrows(0, |init| - 1);
    assert IsDigit(c);
  }

  lemma {:induction false} ReadsPrinted(s: string, n: nat)
    requires s != "" && AllDigits(s) && (|s| > 1 ==> s[0] != '0') && Decimal(s) == n
    ensures Text.Decimal(n) == s
    decreases |s|
  {
    if |s| == 1 {
      assert IsDigit(s[0]) && s == [s[0]] && s[..0] == "";
      PrintDigit(0, s[0]);
    } else {
      var init, q, c := SplitDecimal(s);
      ReadsPrinted(init, q);
      PrintDigit(q, c);
    }
  }

  /** A key is an array index exactly when it is the printed form of a number below 2^32 - 1. */
  lemma IndexExactly(key: string, n: nat)
    ensures IsIndex(key) && Decimal(key) == n <==> n < 4294967295 && key == Text.Decimal(n)
  {
    PrintedReads(n);
    if IsIndex(key) { ReadsPrinted(key, Decimal(key)); }
  }

  /** Bytewise order: the first place where two sequences differ decides, or the shorter one is first. */
  lemma {:induction false} LessExactly(a: seq<Byte>, b: seq<Byte>) returns (i: nat)
    ensures i <= |a| && i <= |b| && a[..i] == b[..i] && (i < |a| && i < |b| ==> a[i] != b[i])
    ensures LessBytes(a, b) <==> i < |b| && (i == |a| || a[i] < b[i])
    decreases |a|
  {
    i := 0;
    if a != [] && b != [] && a[0] == b[0] {
      var j := LessExactly(a[1..], b[1..]);
      i := j + 1;
      assert a[..i] == [a[0]] + a[1..][..j] && b[..i] == [b[0]] + b[1..][..j];
    }
  }

  /** Array indices come before all other keys; those go by their length in bytes, then bytewise. */
  lemma KeyOrder(a: string, b: string) returns (i: nat)
    ensures IsIndex(a) && !IsIndex(b) ==> Before(a, b) && !Before(b, a)
    ensures !IsIndex(a) && !IsIndex(b) ==>
              var x, y := Utf8(a), Utf8(b);
              && i <= |x| && i <= |y| && x[..i] == y[..i] && (i < |x| && i < |y| ==> x[i] != y[i])
              && (Before(a, b) <==> |x| < |y| || (|x| == |y| && i < |x| && x[i] < y[i]))
  {
    i := LessExactly(Utf8(a), Utf8(b));
  }

  // ------------------------------------------------------------------ read back

  function Insert(fs: seq<Field>, f: Field): seq<Field> {
    if fs == [] then [f]
    else if f.key == fs[0].key then [f] + fs[1..]
    else if Before(f.key, fs[0].key) then [f] + fs
    else [fs[0]] + Insert(fs[1..], f)
  }

  function SortFields(fs: seq<Field>): seq<Field> {
    if fs == [] then [] else Insert(SortFields(fs[..|fs| - 1]), fs[|fs| - 1])
  }

  /** The document as it is read from the database. */
  function ReadBack(v: Json): Json
    decreases v, 0
  {
    match v
    case JArr(items) => JArr(ReadItems(items))
    case JObj(fields) => JObj(SortFields(ReadFields(fields)))
    case _ => v
  }

  function ReadItems(items: seq<Json>): (r: seq<Json>)
    ensures |r| == |items|
    decreases items, 1
  {
    if items == [] then [] else [ReadBack(items[0])] + ReadItems(items[1..])
  }

  function ReadFields(fields: seq<Field>): (r: seq<Field>)
    ensures |r| == |fields| && forall i :: 0 <= i < |fields| ==> r[i].key == fields[i].key
    decreases fields, 1
  {
    if fields == [] then []
    else [Field(fields[0].key, ReadBack(fields[0].value))] + ReadFields(fields[1..])
  }

  // ---------------------------------------------------------------- fixed points

  /** The keys are listed in order, without repetition. */
  predicate Ordered(fs: seq<Field>) { forall i, j :: 0 <= i < j < |fs| ==> Before(fs[i].key, fs[j].key) }

  /** Every object in the document has its keys in order: what a caller can see before it is stored. */
  predicate Settled(v: Json)
    decreases v, 0
  {
    match v
    case JArr(items) => SettledItems(items)
    case JObj(fields) => Ordered(fields) && SettledFields(fields)
    case _ => true
  }

  predicate SettledItems(items: seq<Json>)
    decreases items, 1
  {
    items == [] || (Settled(items[0]) && SettledItems(items[1..]))
  }

  predicate SettledFields(fields: seq<Field>)
    decreases fields, 1
  {
    fields == [] || (Settled(fields[0].value) && SettledFields(fields[1..]))
  }

  ghost predicate First(key: string, fs: seq<Field>) { forall i :: 0 <= i < |fs| ==> Before(key, fs[i].key) }

  lemma OrderedCons(f: Field, fs: seq<Field>)
    ensures Ordered([f] + fs) <==> First(f.key, fs) && Ordered(fs)
  {
    var all := [f] + fs;
    assert forall i :: 0 <= i < |fs| ==> fs[i] == all[i + 1];
    if Ordered(all) {
      forall i | 0 <= i < |fs| ensures Before(f.key, fs[i].key) { assert Before(all[0].key, all[i + 1].key); }
      forall i, j | 0 <= i < j < |fs| ensures Before(fs[i].key, fs[j].key) {
        assert Before(all[i + 1].key, all[j + 1].key);
      }
    }
  }

  lemma {:induction false} InsertFirst(key: string, fs: seq<Field>, f: Field)
    requires Before(key, f.key) && First(key, fs)
    ensures First(key, Insert(fs, f))
  {
    if fs != [] {
      assert First(key, fs[1..]) by { assert forall i :: 0 <= i < |fs| - 1 ==> fs[1..][i] == fs[i + 1]; }
      InsertFirst(key, fs[1..], f);
    }
  }

  /** A key before the first one is before all of them. */
  lemma FirstOfAll(key: string, fs: seq<Field>)
    requires fs != [] && Ordered(fs) && Before(key, fs[0].key)
    ensures First(key, fs)
  {
    forall i | 0 <= i < |fs| ensures Before(key, fs[i].key) {
      if i > 0 { BeforeTransitive(key, fs[0].key, fs[i].key); }
    }
  }

  lemma {:induction false} InsertOrdered(fs: seq<Field>, f: Field)
    requires Ordered(fs)
    ensures Ordered(Insert(fs, f))
  {
    if fs != [] {
      var head, rest := fs[0], fs[1..];
      assert fs == [head] + rest;
      OrderedCons(head, rest);
      if f.key == head.key {
        OrderedCons(f, rest);
      } else if Before(f.key, head.key) {
        FirstOfAll(f.key, fs);
        OrderedCons(f, fs);
      } else {
        BeforeTotal(f.key, head.key);
        InsertOrdered(rest, f);
        InsertFirst(head.key, rest, f);
        OrderedCons(head, Insert(rest, f));
      }
    }
  }

  lemma {:induction false} SortOrdered(fs: seq<Field>)
    ensures Ordered(SortFields(fs))
  {
    if fs != [] {
      SortOrdered(fs[..|fs| - 1]);
      InsertOrdered(SortFields(fs[..|fs| - 1]), fs[|fs| - 1]);
    }
  }

  lemma {:induction false} InsertLast(fs: seq<Field>, f: Field)
    requires forall i :: 0 <= i < |fs| ==> Before(fs[i].key, f.key)
    ensures Insert(fs, f) == fs + [f]
  {
    if fs != [] {
      BeforeTotal(fs[0].key, f.key);
      InsertLast(fs[1..], f);
      assert [fs[0]] + (fs[1..] + [f]) == fs + [f];
    }
  }

  lemma {:induction false} SortKeeps(fs: seq<Field>)
    requires Ordered(fs)
    ensures SortFields(fs) == fs
  {
    if fs != [] {
      var init := fs[..|fs| - 1];
      SortKeeps(init);
      InsertLast(init, fs[|fs| - 1]);
      assert init + [fs[|fs| - 1]] == fs;
    }
  }

  /** A document comes back as it was stored exactly when it is settled. */
  lemma {:induction false} ReadBackExactly(v: Json)
    ensures ReadBack(v) == v <==> Settled(v)
    decreases v, 0
  {
    match v
    case JArr(items) => ReadItemsExactly(items);
    case JObj(fields) =>
      var read := ReadFields(fields);
      ReadFieldsExactly(fields);
      SortOrdered(read);
      if Ordered(fields) { SortKeeps(read); }
    case _ =>
  }

  lemma {:induction false} ReadItemsExactly(items: seq<Json>)
    ensures ReadItems(items) == items <==> SettledItems(items)
    decreases items, 1
  {
    if items != [] {
      ReadBackExactly(items[0]);
      ReadItemsExactly(items[1..]);
      assert items == [items[0]] + items[1..];
      assert ReadItems(items)[1..] == ReadItems(items[1..]);
    }
  }

  lemma {:induction false} ReadFieldsExactly(fields: seq<Field>)
    ensures ReadFields(fields) == fields <==> SettledFields(fields)
    decreases fields, 1
  {
    if fields != [] {
      ReadBackExactly(fields[0].value);
      ReadFieldsExactly(fields[1..]);
      assert fields == [fields[0]] + fields[1..];
      assert ReadFields(fields)[1..] == ReadFields(fields[1..]);
    }
  }

  /** What is read is settled: storing it again changes nothing. */
  lemma {:induction false} ReadBackSettles(v: Json)
    ensures Settled(ReadBack(v)) && ReadBack(ReadBack(v)) == ReadBack(v)
    decreases v, 1
  {
    ReadBackIsSettled(v);
    ReadBackExactly(ReadBack(v));
  }

  lemma {:induction false} ReadBackIsSettled(v: Json)
    ensures Settled(ReadBack(v))
    decreases v, 0
  {
    match v
    case JArr(items) => ItemsSettle(items);
    case JObj(fields) =>
      FieldsSettle(fields);
      SortOrdered(ReadFields(fields));
      SortSettles(ReadFields(fields));
    case _ =>
  }

  lemma {:induction false} ItemsSettle(items: seq<Json>)
    ensures SettledItems(ReadItems(items))
    decreases items, 1
  {
    if items != [] {
      ReadBackIsSettled(items[0]);
      ItemsSettle(items[1..]);
      assert ReadItems(items)[1..] == ReadItems(items[1..]);
    }
  }

  lemma {:induction false} FieldsSettle(fields: seq<Field>)
    ensures SettledFields(ReadFields(fields))
    decreases fields, 1
  {
    if fields != [] {
      ReadBackIsSettled(fields[0].value);
      FieldsSettle(fields[1..]);
      assert ReadFields(fields)[1..] == ReadFields(fields[1..]);
    }
  }

  lemma {:induction false} SettledAt(fs: seq<Field>)
    ensures SettledFields(fs) <==> forall i :: 0 <= i < |fs| ==> Settled(fs[i].value)
  {
    if fs != [] {
      SettledAt(fs[1..]);
      assert forall i :: 1 <= i < |fs| ==> fs[i] == fs[1..][i - 1];
      assert (forall i :: 0 <= i < |fs| - 1 ==> Settled(fs[1..][i].value)) <==> forall i :: 1 <= i < |fs| ==> Settled(fs[i].value) by {
        assert forall i :: 0 <= i < |fs| - 1 ==> fs[1..][i] == fs[i + 1];
      }
    }
  }

  lemma {:induction false} InsertValues(fs: seq<Field>, f: Field)
    ensures forall i :: 0 <= i < |Insert(fs, f)| ==> Insert(fs, f)[i] == f || Insert(fs, f)[i] in fs
  {
    if fs != [] {
      InsertValues(fs[1..], f);
      assert forall g <- fs[1..] :: g in fs;
    }
  }

  lemma {:induction false} SortSettles(fs: seq<Field>)
    requires SettledFields(fs)
    ensures SettledFields(SortFields(fs))
  {
    SettledAt(fs);
    if fs != [] {
      var init := fs[..|fs| - 1];
      SettledAt(init);
      SortSettles(init);
      SettledAt(SortFields(init));
      InsertValues(SortFields(init), fs[|fs| - 1]);
      SettledAt(SortFields(fs));
    }
  }

  /** The value of a key: the last one given. */
  function Lookup(fs: seq<Field>, key: string): Option<Json> {
    if fs == [] then None
    else if fs[|fs| - 1].key == key then Some(fs[|fs| - 1].value)
    else Lookup(fs[..|fs| - 1], key)
  }

  lemma {:induction false} LookupCons(f: Field, fs: seq<Field>, key: string)
    ensures Lookup([f] + fs, key) ==
            if Lookup(fs, key).Some? then Lookup(fs, key) else if f.key == key then Some(f.value) else None
  {
    var all := [f] + fs;
    if fs != [] {
      LookupCons(f, fs[..|fs| - 1], key);
      assert all[..|all| - 1] == [f] + fs[..|fs| - 1];
    } else {
      assert all == [f] && all[..0] == [];
    }
  }

  lemma {:induction false} InsertLookup(fs: seq<Field>, f: Field, key: string)
    requires Ordered(fs)
    ensures Lookup(Insert(fs, f), key) == if f.key == key then Some(f.value) else Lookup(fs, key)
  {
    if fs == [] {
      LookupCons(f, [], key);
      assert [f] + [] == [f];
    } else {
      var head, rest := fs[0], fs[1..];
      assert fs == [head] + rest;
      OrderedCons(head, rest);
      LookupCons(head, rest, key);
      if f.key == head.key {
        LookupCons(f, rest, key);
        NotAfter(f.key, rest);
      } else if Before(f.key, head.key) {
        LookupCons(f, fs, key);
        FirstOfAll(f.key, fs);
        NotAfter(f.key, fs);
      } else {
        InsertLookup(rest, f, key);
        LookupCons(head, Insert(rest, f), key);
      }
    }
  }

  lemma {:induction false} NotAfter(key: string, fs: seq<Field>)
    requires First(key, fs)
    ensures Lookup(fs, key) == None
  {
    if fs != [] {
      BeforeTotal(key, fs[|fs| - 1].key);
      NotAfter(key, fs[..|fs| - 1]);
    }
  }

  lemma {:induction false} SortLookup(fs: seq<Field>, key: string)
    ensures Lookup(SortFields(fs), key) == Lookup(fs, key)
  {
    if fs != [] {
      var init := fs[..|fs| - 1];
      SortLookup(init, key);
      SortOrdered(init);
      InsertLookup(SortFields(init), fs[|fs| - 1], key);
    }
  }

  lemma {:induction false} ReadLookup(fs: seq<Field>, key: string)
    ensures Lookup(ReadFields(fs), key) ==
            if Lookup(fs, key).Some? then Some(ReadBack(Lookup(fs, key).value)) else None
  {
    if fs != [] {
      ReadLookup(fs[1..], key);
      LookupCons(fs[0], fs[1..], key);
      LookupCons(Field(fs[0].key, ReadBack(fs[0].value)), ReadFields(fs[1..]), key);
      assert fs == [fs[0]] + fs[1..];
    }
  }

  /** An object read back has the same keys, each with its last value, read back in turn. */
  lemma ReadBackMembers(fs: seq<Field>, key: string)
    ensures ReadBack(JObj(fs)).JObj?
    ensures Lookup(ReadBack(JObj(fs)).fields, key) ==
            if Lookup(fs, key).Some? then Some(ReadBack(Lookup(fs, key).value)) else None
  {
    SortLookup(ReadFields(fs), key);
    ReadLookup(fs, key);
  }

  /** An array keeps its items in place; other values stay as they are. */
  lemma {:induction false} ReadBackItems(items: seq<Json>, i: nat)
    requires i < |items|
    ensures ReadBack(JArr(items)).JArr? && |ReadBack(JArr(items)).items| == |items|
    ensures ReadBack(JArr(items)).items[i] == ReadBack(items[i])
  {
    if i > 0 { ReadBackItems(items[1..], i - 1); }
  }

  lemma {:induction false} AsciiLength(s: string)
    requires forall i :: 0 <= i < |s| ==> s[i] as int < 0x80
    ensures |Utf8(s)| == |s|
  {
    if s != "" { AsciiLength(s[1..]); }
  }

  /** A plain name: ASCII, and not a number. */
  predicate Name(s: string) { s != "" && !IsDigit(s[0]) && forall i :: 0 <= i < |s| ==> s[i] as int < 0x80 }

  lemma ShorterNameFirst(a: string, b: string)
    requires Name(a) && Name(b) && |a| < |b|
    ensures Before(a, b) && !Before(b, a)
  {
    AsciiLength(a);
    AsciiLength(b);
    BeforeTotal(a, b);
  }
}
