/** Recursive search for a key in decoded event payloads, against the pre-order enumeration of
    the key's occurrences. */
module JsonSearch {
  import opened Common
  import opened Text

  // A number carries its printed form and its value as a 64-bit integer, when it has one. The
  // members of an object are listed in the map's iteration order.
  datatype Json =
    | Null
    | Bool(b: bool)
    | Number(text: string, asI64: Option<int>)
    | Str(s: string)
    | Array(items: seq<Json>)
    | Object(members: seq<(string, Json)>)

  function Get(members: seq<(string, Json)>, key: string): Option<Json> {
    if members == [] then None
    else if members[0].0 == key then Some(members[0].1)
    else Get(members[1..], key)
  }

  // `text.parse::<i64>()`
  function ParseI64(text: string): Option<int> {
    var digits := if text != "" && (text[0] == '-' || text[0] == '+') then text[1..] else text;
    if digits == "" || !AllDigits(digits) then None
    else
      var n := if text[0] == '-' then -ValueOf(digits) else ValueOf(digits);
      if -0x8000_0000_0000_0000 <= n <= 0x7FFF_FFFF_FFFF_FFFF then Some(n) else None
  }

  predicate AllDigits(s: string) {
    forall i :: 0 <= i < |s| ==> '0' <= s[i] <= '9'
  }

  function AsText(v: Json): Option<string> {
    match v
    case Str(s) => Some(s)
    case Number(text, _) => Some(text)
    case _ => None
  }

  function AsI64(v: Json): Option<int> {
    match v
    case Number(_, n) => n
    case Str(s) => ParseI64(s)
    case _ => None
  }

  // ---------- The source's searches ----------

  // `find_nested_string` and `find_nested_i64` differ only in the conversion of a value.
  function Find<T>(v: Json, key: string, convert: Json -> Option<T>): Option<T>
    decreases v, 1
  {
    match v
    case Object(members) =>
      (match (match Get(members, key) case Some(item) => convert(item) case None => None)
       case Some(found) => Some(found)
       case None => FindInMembers(v, members, key, convert))
    case Array(items) => FindInItems(v, items, key, convert)
    case _ => None
  }

  // `find_map` over the values of an object.
  function FindInMembers<T>(v: Json, members: seq<(string, Json)>, key: string, convert: Json -> Option<T>): Option<T>
    requires v.Object? && forall i :: 0 <= i < |members| ==> members[i] in v.members
    decreases v, 0, |members|
  {
    if members == [] then None
    else
      match Find(members[0].1, key, convert)
      case Some(found) => Some(found)
      case None => FindInMembers(v, members[1..], key, convert)
  }

  // `find_map` over the items of an array.
  function FindInItems<T>(v: Json, items: seq<Json>, key: string, convert: Json -> Option<T>): Option<T>
    requires v.Array? && forall i :: 0 <= i < |items| ==> items[i] in v.items
    decreases v, 0, |items|
  {
    if items == [] then None
    else
      match Find(items[0], key, convert)
      case Some(found) => Some(found)
      case None => FindInItems(v, items[1..], key, convert)
  }

  function FindNestedString(v: Json, key: string): Option<string> {
    Find(v, key, AsText)
  }

  function FindNestedI64(v: Json, key: string): Option<int> {
    Find(v, key, AsI64)
  }

  function ExtractTxHash(v: Json): string {
    match FindNestedString(v, "tx_hash")
    case Some(s) => s
    case None =>
      match FindNestedString(v, "txHash")
      case Some(s) => s
      case None =>
        match FindNestedString(v, "transactionHash")
        case Some(s) => s
        case None => "unknown"
  }

  // ---------- The enumeration ----------

  // The values stored under the key anywhere in the tree, an object's own before its children's.
  function Occurrences(v: Json, key: string): seq<Json>
    decreases v, 1
  {
    match v
    case Object(members) =>
      (match Get(members, key) case Some(item) => [item] case None => []) + MemberOccurrences(v, members, key)
    case Array(items) => ItemOccurrences(v, items, key)
    case _ => []
  }

  function MemberOccurrences(v: Json, members: seq<(string, Json)>, key: string): seq<Json>
    requires v.Object? && forall i :: 0 <= i < |members| ==> members[i] in v.members
    decreases v, 0, |members|
  {
    if members == [] then [] else Occurrences(members[0].1, key) + MemberOccurrences(v, members[1..], key)
  }

  function ItemOccurrences(v: Json, items: seq<Json>, key: string): seq<Json>
    requires v.Array? && forall i :: 0 <= i < |items| ==> items[i] in v.items
    decreases v, 0, |items|
  {
    if items == [] then [] else Occurrences(items[0], key) + ItemOccurrences(v, items[1..], key)
  }

  // The first convertible value of a list: every earlier one does not convert.
  function FirstSome<T>(vs: seq<Json>, convert: Json -> Option<T>): (r: Option<T>)
    ensures r.None? <==> forall i :: 0 <= i < |vs| ==> convert(vs[i]).None?
    ensures r.Some? ==>
              exists i :: 0 <= i < |vs| && convert(vs[i]) == r && forall j :: 0 <= j < i ==> convert(vs[j]).None?
  {
    if vs == [] then None
    else if convert(vs[0]).Some? then convert(vs[0])
    else
      var r := FirstSome(vs[1..], convert);
      assert r.Some? ==>
          exists i :: 0 <= i < |vs| && convert(vs[i]) == r && forall j :: 0 <= j < i ==> convert(vs[j]).None?
      by {
        if r.Some? {
          var k :| 0 <= k < |vs[1..]| && convert(vs[1..][k]) == r
                   && forall j :: 0 <= j < k ==> convert(vs[1..][j]).None?;
          assert convert(vs[k + 1]) == r;
          forall j | 0 <= j < k + 1 ensures convert(vs[j]).None? {
            assert j > 0 ==> vs[j] == vs[1..][j - 1];
          }
        }
      }
      r
  }

  lemma {:induction false} FirstSomeConcat<T>(a: seq<Json>, b: seq<Json>, convert: Json -> Option<T>)
    ensures FirstSome(a + b, convert)
            == if FirstSome(a, convert).Some? then FirstSome(a, convert) else FirstSome(b, convert)
  {
    if a == [] {
      assert a + b == b;
    } else {
      assert (a + b)[0] == a[0] && (a + b)[1..] == a[1..] + b;
      FirstSomeConcat(a[1..], b, convert);
    }
  }

  /** For trees of any depth, the search returns exactly the first convertible occurrence, and
      nothing if and only if no occurrence converts. */
  lemma {:induction false} FindIsFirstOccurrence<T>(v: Json, key: string, convert: Json -> Option<T>)
    ensures Find(v, key, convert) == FirstSome(Occurrences(v, key), convert)
    decreases v, 1
  {
    match v
    case Object(members) =>
      var own := match Get(members, key) case Some(item) => [item] case None => [];
      FirstSomeConcat(own, MemberOccurrences(v, members, key), convert);
      FindInMembersIsFirst(v, members, key, convert);
    case Array(items) => FindInItemsIsFirst(v, items, key, convert);
    case _ =>
  }

  lemma {:induction false} FindInMembersIsFirst<T>(
      v: Json, members: seq<(string, Json)>, key: string, convert: Json -> Option<T>)
    requires v.Object? && forall i :: 0 <= i < |members| ==> members[i] in v.members
    ensures FindInMembers(v, members, key, convert) == FirstSome(MemberOccurrences(v, members, key), convert)
    decreases v, 0, |members|
  {
    if members != [] {
      FindIsFirstOccurrence(members[0].1, key, convert);
      FindInMembersIsFirst(v, members[1..], key, convert);
      FirstSomeConcat(Occurrences(members[0].1, key), MemberOccurrences(v, members[1..], key), convert);
    }
  }

  lemma {:induction false} FindInItemsIsFirst<T>(v: Json, items: seq<Json>, key: string, convert: Json -> Option<T>)
    requires v.Array? && forall i :: 0 <= i < |items| ==> items[i] in v.items
    ensures FindInItems(v, items, key, convert) == FirstSome(ItemOccurrences(v, items, key), convert)
    decreases v, 0, |items|
  {
    if items != [] {
      FindIsFirstOccurrence(items[0], key, convert);
      FindInItemsIsFirst(v, items[1..], key, convert);
      FirstSomeConcat(Occurrences(items[0], key), ItemOccurrences(v, items[1..], key), convert);
    }
  }

  // The value is a text, or a number with this text.
  predicate Says(v: Json, s: string) {
    v == Str(s) || (v.Number? && v.text == s)
  }

  // An optional sign and at least one digit, with this value.
  ghost predicate Denotes(text: string, n: int) {
    exists sign, digits ::
      && (sign == "" || sign == "+" || sign == "-")
      && digits != "" && AllDigits(digits)
      && text == sign + digits
      && n == if sign == "-" then -ValueOf(digits) else ValueOf(digits)
  }

  predicate Is64Bit(n: int) {
    -0x8000_0000_0000_0000 <= n <= 0x7FFF_FFFF_FFFF_FFFF
  }

  // The value is a number that fits, or the text of one.
  ghost predicate Counts(v: Json, n: int) {
    (v.Number? && v.asI64 == Some(n)) || (v.Str? && Denotes(v.s, n) && Is64Bit(n))
  }

  lemma {:induction false} DenotesOne(sign: string, digits: string)
    requires sign == "" || sign == "+" || sign == "-"
    requires digits != "" && AllDigits(digits)
    ensures var n := if sign == "-" then -ValueOf(digits) else ValueOf(digits);
            ParseI64(sign + digits) == if Is64Bit(n) then Some(n) else None
  {
    if sign == "" {
      assert sign + digits == digits;
      UnsignedText(digits);
    } else {
      SignedText(sign[0], digits);
      assert sign == [sign[0]];
    }
  }

  lemma {:induction false} UnsignedText(digits: string)
    requires digits != "" && AllDigits(digits)
    ensures ParseI64(digits) == if Is64Bit(ValueOf(digits)) then Some(ValueOf(digits)) else None
  {
  }

  lemma {:induction false} SignedText(sign: char, digits: string)
    requires (sign == '+' || sign == '-') && digits != "" && AllDigits(digits)
    ensures var n := if sign == '-' then -ValueOf(digits) else ValueOf(digits);
            ParseI64([sign] + digits) == if Is64Bit(n) then Some(n) else None
  {
    assert ([sign] + digits)[1..] == digits;
  }

  lemma {:induction false} ParseSplits(text: string) returns (sign: string, digits: string)
    requires ParseI64(text).Some?
    ensures (sign == "" || sign == "+" || sign == "-") && digits != "" && AllDigits(digits) && text == sign + digits
  {
    if text[0] == '-' || text[0] == '+' {
      sign, digits := text[..1], text[1..];
    } else {
      sign, digits := "", text;
    }
  }

  /** A text is read as a 64-bit integer if and only if it is a sign, if any, and digits with a value that
      fits. */
  lemma {:induction false} ParseIff(text: string, n: int)
    ensures ParseI64(text) == Some(n) <==> Denotes(text, n) && Is64Bit(n)
  {
    if Denotes(text, n) {
      var sign, digits :|
        && (sign == "" || sign == "+" || sign == "-")
        && digits != "" && AllDigits(digits)
        && text == sign + digits
        && n == if sign == "-" then -ValueOf(digits) else ValueOf(digits);
      DenotesOne(sign, digits);
    } else if ParseI64(text).Some? {
      var sign, digits := ParseSplits(text);
      DenotesOne(sign, digits);
    }
  }

  lemma {:induction false} TextIff(v: Json, s: string)
    ensures AsText(v) == Some(s) <==> Says(v, s)
  {
  }

  lemma {:induction false} CountIff(v: Json, n: int)
    ensures AsI64(v) == Some(n) <==> Counts(v, n)
  {
    if v.Str? {
      ParseIff(v.s, n);
    }
  }

  lemma {:induction false} FirstSomeIff<T>(vs: seq<Json>, convert: Json -> Option<T>, x: T)
    ensures FirstSome(vs, convert) == Some(x)
            <==> exists i ::
                   0 <= i < |vs| && convert(vs[i]) == Some(x) && forall j :: 0 <= j < i ==> convert(vs[j]).None?
  {
    if i :| 0 <= i < |vs| && convert(vs[i]) == Some(x) && forall j :: 0 <= j < i ==> convert(vs[j]).None? {
      FirstSomeAt(vs, convert, i);
    }
  }

  /** `find_nested_string` finds a text if and only if it is the first occurrence that is a text or a
      number; everything before it is neither. */
  lemma {:induction false} NestedStringIff(v: Json, key: string, s: string)
    ensures var all := Occurrences(v, key);
            FindNestedString(v, key) == Some(s)
            <==> exists i ::
                   0 <= i < |all| && Says(all[i], s) && forall j :: 0 <= j < i ==> !all[j].Str? && !all[j].Number?
  {
    var all := Occurrences(v, key);
    FindIsFirstOccurrence(v, key, AsText);
    FirstSomeIff(all, AsText, s);
    if i :| 0 <= i < |all| && AsText(all[i]) == Some(s) && forall j :: 0 <= j < i ==> AsText(all[j]).None? {
      TextIff(all[i], s);
      forall j | 0 <= j < i ensures !all[j].Str? && !all[j].Number? {
        assert AsText(all[j]).None?;
      }
    }
    if i :| 0 <= i < |all| && Says(all[i], s) && forall j :: 0 <= j < i ==> !all[j].Str? && !all[j].Number? {
      TextIff(all[i], s);
      assert AsText(all[i]) == Some(s);
    }
  }

  /** `find_nested_i64` finds an integer if and only if it is the first occurrence that is a 64-bit number
      or the text of one; nothing before it is either. */
  lemma {:induction false} NestedI64Iff(v: Json, key: string, n: int)
    ensures var all := Occurrences(v, key);
            FindNestedI64(v, key) == Some(n)
            <==> exists i :: 0 <= i < |all| && Counts(all[i], n) && forall j, m :: 0 <= j < i ==> !Counts(all[j], m)
  {
    var all := Occurrences(v, key);
    FindIsFirstOccurrence(v, key, AsI64);
    FirstSomeIff(all, AsI64, n);
    if i :| 0 <= i < |all| && AsI64(all[i]) == Some(n) && forall j :: 0 <= j < i ==> AsI64(all[j]).None? {
      CountIff(all[i], n);
      forall j, m | 0 <= j < i ensures !Counts(all[j], m) {
        assert AsI64(all[j]).None?;
        CountIff(all[j], m);
      }
    }
    if i :| 0 <= i < |all| && Counts(all[i], n) && forall j, m :: 0 <= j < i ==> !Counts(all[j], m) {
      CountIff(all[i], n);
      forall j | 0 <= j < i ensures AsI64(all[j]).None? {
        if AsI64(all[j]).Some? {
          CountIff(all[j], AsI64(all[j]).value);
        }
      }
    }
  }

  lemma {:induction false} FirstSomeAt<T>(vs: seq<Json>, convert: Json -> Option<T>, i: nat)
    requires i < |vs| && convert(vs[i]).Some? && forall j :: 0 <= j < i ==> convert(vs[j]).None?
    ensures FirstSome(vs, convert) == convert(vs[i])
  {
    if i > 0 {
      FirstSomeAt(vs[1..], convert, i - 1);
    }
  }

  /** The transaction hash is the first textual occurrence under the three spellings in turn, else
      "unknown"; a hash whose text is "unknown" cannot be told from a missing one. */
  lemma {:induction false} TxHashIsFirst(v: Json)
    ensures var all := Occurrences(v, "tx_hash") + Occurrences(v, "txHash") + Occurrences(v, "transactionHash");
            ExtractTxHash(v) == (match FirstSome(all, AsText) case Some(s) => s case None => "unknown")
  {
    var a, b, c := Occurrences(v, "tx_hash"), Occurrences(v, "txHash"), Occurrences(v, "transactionHash");
    FindIsFirstOccurrence(v, "tx_hash", AsText);
    FindIsFirstOccurrence(v, "txHash", AsText);
    FindIsFirstOccurrence(v, "transactionHash", AsText);
    FirstSomeConcat(a, b, AsText);
    FirstSomeConcat(a + b, c, AsText);
  }

  lemma {:induction false} ParseDigits(a: nat)
    ensures var n := ValueOf(Digits(a));
            n == a && AllDigits(Digits(a)) && Digits(a) != "" && Digits(a)[0] != '-' && Digits(a)[0] != '+'
  {
    DigitsPlain(a);
    DigitsValue(a);
  }

  lemma {:induction false} ParseNegative(a: int)
    requires 0 < a
    ensures AsI64(Str("-" + Digits(a))) == if a <= 0x8000_0000_0000_0000 then Some(-a) else None
  {
    ParseDigits(a);
    assert ("-" + Digits(a))[1..] == Digits(a);
  }

  lemma {:induction false} ParseNatural(a: nat)
    ensures AsI64(Str(Digits(a))) == if a <= 0x7FFF_FFFF_FFFF_FFFF then Some(a) else None
  {
    ParseDigits(a);
  }

  /** Every 64-bit integer survives being carried as a string, and no other integer is read. */
  lemma {:induction false} ParsePrinted(n: int)
    ensures AsI64(Str(Decimal(n)))
            == if -0x8000_0000_0000_0000 <= n <= 0x7FFF_FFFF_FFFF_FFFF then Some(n) else None
  {
    if n < 0 {
      ParseNegative(-n);
    } else {
      ParseNatural(n);
    }
  }
}
