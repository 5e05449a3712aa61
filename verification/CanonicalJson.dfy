/** `canonicalJSON`: JSON with every map's keys sorted, written to a shared buffer. The syntax
    of objects and arrays is that of sections 4 and 5 of RFC 8259. */
module CanonicalJson {
  import opened Order
  import opened Components
  import opened FifoSort

  /** The values the type switch tells apart: `map[string]any`, `[]any`, `[]string`, `nil`, and
      the leaves it leaves to `json.Marshal`, strings and others. */
  datatype Value<L> = Dict(fields: map<string, Value<L>>) | List(items: seq<Value<L>>) | Strings(texts: seq<string>)
                    | Null | Text(text: string) | Other(leaf: L)

  /** `json.Marshal` of a string, which cannot fail, and of any other leaf, which can. */
  datatype Encoder<!L> = Encoder(text: string -> string, other: L -> Option<string>)

  function Texts<L>(texts: seq<string>): (r: seq<Value<L>>)
    ensures |r| == |texts| && forall i :: 0 <= i < |r| ==> r[i] == Text(texts[i])
  {
    seq(|texts|, i requires 0 <= i < |texts| => Text(texts[i]))
  }

  /** A string slice and a list of the same strings are one JSON value. */
  function Normalize<L>(v: Value<L>): Value<L> {
    match v
    case Dict(fields) => Dict(map k | k in fields :: Normalize(fields[k]))
    case List(items) => List(NormalizeAll(items))
    case Strings(texts) => List(Texts(texts))
    case _ => v
  }

  function NormalizeAll<L>(items: seq<Value<L>>): (r: seq<Value<L>>)
    ensures |r| == |items| && forall i :: 0 <= i < |r| ==> r[i] == Normalize(items[i])
  {
    seq(|items|, i requires 0 <= i < |items| => Normalize(items[i]))
  }

  predicate IsList<L>(v: Value<L>) {
    v.List? || v.Strings?
  }

  function Items<L>(v: Value<L>): seq<Value<L>>
    requires IsList(v)
  {
    if v.List? then v.items else Texts(v.texts)
  }

  lemma NormalizeList<L>(v: Value<L>)
    requires IsList(v)
    ensures Normalize(v) == List(NormalizeAll(Items(v)))
  {
    if v.Strings? {
      assert NormalizeAll(Texts<L>(v.texts)) == Texts<L>(v.texts);
    }
  }

  // ---------------------------------------------------------------- specification

  function Comma(i: nat): string {
    if i > 0 then "," else ""
  }

  function Prepend(s: string, rest: Option<string>): Option<string> {
    if rest.None? then None else Some(s + rest.value)
  }

  function Join(part: Option<string>, rest: Option<string>): Option<string> {
    if part.None? then None else Prepend(part.value, rest)
  }

  /** Leaves are written without looking further into them. */
  function Rank<L>(v: Value<L>): nat {
    if IsAtom(v) then 0 else 1
  }

  ghost function Keys<L>(v: Value<L>): seq<string>
    requires v.Dict?
  {
    SortedSeq(v.fields.Keys)
  }

  /** The text of a value; none when some leaf cannot be marshalled. */
  ghost function Canon<L>(enc: Encoder<L>, v: Value<L>): Option<string>
    decreases Rank(v), v, 2, 0
  {
    if v.Dict? then Prepend("{", FieldsFrom(enc, v, Keys(v), 0))
    else if IsList(v) then Prepend("[", ItemsFrom(enc, v, 0))
    else AtomCode(enc, v)
  }

  predicate IsAtom<L>(v: Value<L>) {
    v.Null? || v.Text? || v.Other?
  }

  function AtomCode<L>(enc: Encoder<L>, v: Value<L>): Option<string>
    requires IsAtom(v)
  {
    match v
    case Null => Some("null")
    case Text(text) => Some(enc.text(text))
    case Other(leaf) => enc.other(leaf)
  }

  /** From item `i` to the closing bracket. */
  ghost function ItemsFrom<L>(enc: Encoder<L>, v: Value<L>, i: nat): Option<string>
    requires IsList(v) && i <= |Items(v)|
    decreases Rank(v), v, 1, |Items(v)| - i
  {
    if i == |Items(v)| then Some("]")
    else Prepend(Comma(i), Join(Canon(enc, Items(v)[i]), ItemsFrom(enc, v, i + 1)))
  }

  ghost predicate KeysOf<L>(v: Value<L>, ks: seq<string>) {
    v.Dict? && forall k :: k in ks ==> k in v.fields
  }

  ghost function Field<L>(enc: Encoder<L>, v: Value<L>, k: string): Option<string>
    requires v.Dict? && k in v.fields
    decreases Rank(v), v, 0, 0
  {
    Prepend(enc.text(k) + ":", Canon(enc, v.fields[k]))
  }

  /** From field `i` to the closing brace. */
  ghost function FieldsFrom<L>(enc: Encoder<L>, v: Value<L>, ks: seq<string>, i: nat): Option<string>
    requires KeysOf(v, ks) && i <= |ks|
    decreases Rank(v), v, 1, |ks| - i
  {
    if i == |ks| then Some("}")
    else Prepend(Comma(i), Join(Field(enc, v, ks[i]), FieldsFrom(enc, v, ks, i + 1)))
  }

  // ---------------------------------------------------------------- the writers

  lemma PrependPrepend(a: string, b: string, rest: Option<string>)
    ensures Prepend(a, Prepend(b, rest)) == Prepend(a + b, rest)
  {
    if rest.Some? {
      assert a + (b + rest.value) == a + b + rest.value;
    }
  }

  method MapKeys<L>(fields: map<string, Value<L>>) returns (keys: seq<string>)
    ensures keys == SortedSeq(fields.Keys)
  {
    keys := [];
    var rest := fields.Keys;
    while rest != {}
      invariant rest <= fields.Keys
      invariant Distinct(keys) && forall k :: k in keys <==> k in fields && k !in rest
      decreases rest
    {
      assert (forall k :: k !in rest) ==> rest == {};
      var k :| k in rest;
      DistinctConcat(keys, [k]);
      keys := keys + [k];
      rest := rest - {k};
    }
    var sorted := SortNames(keys);
    SortNamesSorted(keys);
    SameElements(sorted, keys);
    PermutationDistinct(keys, sorted);
    SortedSeqUnique(fields.Keys, sorted);
    keys := sorted;
  }

  /** The buffer every writer appends to. */
  class Writer<L> {
    const enc: Encoder<L>
    var buf: string

    constructor (enc: Encoder<L>)
      ensures this.enc == enc && buf == ""
    {
      this.enc := enc;
      buf := "";
    }

    /** On success exactly the value's text is appended; what a failed write leaves in the
        buffer nobody reads. */
    method WriteCanonical(v: Value<L>) returns (ok: bool)
      modifies this
      ensures ok <==> Canon(enc, v).Some?
      ensures ok ==> buf == old(buf) + Canon(enc, v).value
      decreases Rank(v), v, 2
    {
      match v
      case Dict(fields) => ok := WriteMap(v);
      case List(items) => ok := WriteSlice(items, v);
      case Strings(texts) => ok := WriteSlice(Texts(texts), v);
      case _ =>
        var code := AtomCode(enc, v);
        if code.None? {
          return false;
        }
        buf := buf + code.value;
        ok := true;
    }

    method WriteMap(v: Value<L>) returns (ok: bool)
      requires v.Dict?
      modifies this
      ensures ok <==> Canon(enc, v).Some?
      ensures ok ==> buf == old(buf) + Canon(enc, v).value
      decreases Rank(v), v, 1
    {
      var keys := MapKeys(v.fields);
      ghost var whole := Prepend(old(buf), Canon(enc, v));
      PrependPrepend(buf, "{", FieldsFrom(enc, v, keys, 0));
      buf := buf + "{";
      for i := 0 to |keys|
        invariant Prepend(buf, FieldsFrom(enc, v, keys, i)) == whole
      {
        FieldTail(enc, v, keys, i, buf);
        if i > 0 {
          buf := buf + ",";
        }
        buf := buf + enc.text(keys[i]) + ":";
        ok := WriteCanonical(v.fields[keys[i]]);
        if !ok {
          return false;
        }
      }
      buf := buf + "}";
      ok := true;
    }

    /** `v` is the list, or the string slice, whose items these are. */
    method WriteSlice(items: seq<Value<L>>, ghost v: Value<L>) returns (ok: bool)
      requires IsList(v) && items == Items(v)
      modifies this
      ensures ok <==> Canon(enc, v).Some?
      ensures ok ==> buf == old(buf) + Canon(enc, v).value
      decreases Rank(v), v, 1
    {
      ghost var whole := Prepend(old(buf), Canon(enc, v));
      PrependPrepend(buf, "[", ItemsFrom(enc, v, 0));
      buf := buf + "[";
      for i := 0 to |items|
        invariant Prepend(buf, ItemsFrom(enc, v, i)) == whole
      {
        ItemTail(enc, v, i, buf);
        if i > 0 {
          buf := buf + ",";
        }
        ok := WriteCanonical(items[i]);
        if !ok {
          return false;
        }
      }
      buf := buf + "]";
      ok := true;
    }
  }

  lemma Assoc(a: string, b: string, c: string)
    ensures a + b + c == a + (b + c)
  {
  }

  lemma ItemTail<L>(enc: Encoder<L>, v: Value<L>, i: nat, buf: string)
    requires IsList(v) && i < |Items(v)|
    ensures var value := Canon(enc, Items(v)[i]);
            && (value.None? ==> Prepend(buf, ItemsFrom(enc, v, i)) == None)
            && (value.Some? ==> Prepend(buf, ItemsFrom(enc, v, i)) ==
                                Prepend((if i > 0 then buf + "," else buf) + value.value, ItemsFrom(enc, v, i + 1)))
  {
    var value, rest := Canon(enc, Items(v)[i]), ItemsFrom(enc, v, i + 1);
    if value.Some? {
      PrependPrepend(Comma(i), value.value, rest);
      PrependPrepend(buf, Comma(i) + value.value, rest);
      Assoc(buf, Comma(i), value.value);
      assert buf + "" == buf;
    }
  }

  lemma FieldTail<L>(enc: Encoder<L>, v: Value<L>, ks: seq<string>, i: nat, buf: string)
    requires KeysOf(v, ks) && i < |ks|
    ensures ks[i] in v.fields
    ensures var value := Canon(enc, v.fields[ks[i]]);
            && (value.None? ==> Prepend(buf, FieldsFrom(enc, v, ks, i)) == None)
            && (value.Some? ==> Prepend(buf, FieldsFrom(enc, v, ks, i)) ==
                                Prepend((if i > 0 then buf + "," else buf) + enc.text(ks[i]) + ":" + value.value,
                                        FieldsFrom(enc, v, ks, i + 1)))
  {
    assert ks[i] in ks;
    var value, rest, key := Canon(enc, v.fields[ks[i]]), FieldsFrom(enc, v, ks, i + 1), enc.text(ks[i]) + ":";
    if value.Some? {
      var start := if i > 0 then buf + "," else buf;
      PrependPrepend(Comma(i), key + value.value, rest);
      PrependPrepend(buf, Comma(i) + (key + value.value), rest);
      Assoc(buf, Comma(i), key + value.value);
      assert buf + Comma(i) == start;
      Assoc(start, key, value.value);
      Assoc(start, enc.text(ks[i]), ":");
    }
  }

  method CanonicalJSON<L>(enc: Encoder<L>, v: Value<L>) returns (r: Option<string>)
    ensures r == Canon(enc, v)
  {
    var writer := new Writer(enc);
    var ok := writer.WriteCanonical(v);
    if !ok {
      return None;
    }
    assert "" + Canon(enc, v).value == Canon(enc, v).value;
    return Some(writer.buf);
  }

  // ---------------------------------------------------------------- what the text is

  /** The parts with a comma between any two. */
  function Joined(parts: seq<string>): string {
    if parts == [] then ""
    else if |parts| == 1 then parts[0]
    else parts[0] + "," + Joined(parts[1..])
  }

  lemma JoinedNext(parts: seq<string>, i: nat)
    requires i < |parts|
    ensures Joined(parts[i..]) == parts[i] + if i + 1 < |parts| then "," + Joined(parts[i + 1..]) else ""
  {
    if i + 1 < |parts| {
      assert parts[i..][1..] == parts[i + 1..];
      assert parts[i] + "," + Joined(parts[i + 1..]) == parts[i] + ("," + Joined(parts[i + 1..]));
    }
  }

  /** What follows the first `i` of the parts up to the closing bracket. */
  function Tail(parts: seq<string>, i: nat, close: string): string
    requires i <= |parts|
  {
    (if 0 < i < |parts| then "," else "") + Joined(parts[i..]) + close
  }

  lemma TailNext(parts: seq<string>, i: nat, close: string)
    requires i < |parts|
    ensures Tail(parts, i, close) == Comma(i) + (parts[i] + Tail(parts, i + 1, close))
  {
    JoinedNext(parts, i);
    if i + 1 == |parts| {
      assert parts[i + 1..] == [];
    }
  }

  lemma TailEnds(parts: seq<string>, close: string)
    ensures Tail(parts, |parts|, close) == close
  {
    assert parts[|parts|..] == [];
    assert Joined(parts[|parts|..]) == "";
  }

  lemma TailStarts(open: string, parts: seq<string>, close: string)
    ensures open + Tail(parts, 0, close) == open + Joined(parts) + close
  {
    assert parts[0..] == parts;
    assert "" + Joined(parts) == Joined(parts);
    ConcatAssociates(open, Joined(parts), close);
  }

  lemma {:induction false} ItemsJoined<L>(enc: Encoder<L>, v: Value<L>, parts: seq<string>, i: nat)
    requires IsList(v) && |parts| == |Items(v)| && i <= |parts|
    requires forall k :: 0 <= k < |parts| ==> Canon(enc, Items(v)[k]) == Some(parts[k])
    ensures ItemsFrom(enc, v, i) == Some(Tail(parts, i, "]"))
    decreases |parts| - i
  {
    if i < |parts| {
      ItemsJoined(enc, v, parts, i + 1);
      TailNext(parts, i, "]");
    } else {
      TailEnds(parts, "]");
    }
  }

  lemma {:induction false} ItemsAllWritten<L>(enc: Encoder<L>, v: Value<L>, i: nat)
    requires IsList(v) && i <= |Items(v)|
    ensures ItemsFrom(enc, v, i).Some? <==> forall k :: i <= k < |Items(v)| ==> Canon(enc, Items(v)[k]).Some?
    decreases |Items(v)| - i
  {
    if i < |Items(v)| {
      ItemsAllWritten(enc, v, i + 1);
      ItemWritten(enc, v, i);
    }
  }

  lemma ItemWritten<L>(enc: Encoder<L>, v: Value<L>, i: nat)
    requires IsList(v) && i < |Items(v)|
    ensures ItemsFrom(enc, v, i).Some? <==> Canon(enc, Items(v)[i]).Some? && ItemsFrom(enc, v, i + 1).Some?
  {
  }

  /** A list, of whatever kind, has a text exactly when all of its items have, and then it is
      theirs, separated by commas, between brackets. */
  lemma ListText<L>(enc: Encoder<L>, v: Value<L>, parts: seq<string>)
    requires IsList(v)
    ensures Canon(enc, v).Some? <==> forall k :: 0 <= k < |Items(v)| ==> Canon(enc, Items(v)[k]).Some?
    ensures |parts| == |Items(v)| && (forall k :: 0 <= k < |parts| ==> Canon(enc, Items(v)[k]) == Some(parts[k])) ==>
              Canon(enc, v) == Some("[" + Joined(parts) + "]")
  {
    ItemsAllWritten(enc, v, 0);
    if |parts| == |Items(v)| && forall k :: 0 <= k < |parts| ==> Canon(enc, Items(v)[k]) == Some(parts[k]) {
      ItemsJoined(enc, v, parts, 0);
      TailStarts("[", parts, "]");
    }
  }

  lemma {:induction false} FieldsJoined<L>(enc: Encoder<L>, v: Value<L>, ks: seq<string>, parts: seq<string>, i: nat)
    requires KeysOf(v, ks) && |parts| == |ks| && i <= |parts|
    requires forall k :: 0 <= k < |parts| ==> ks[k] in v.fields && Field(enc, v, ks[k]) == Some(parts[k])
    ensures FieldsFrom(enc, v, ks, i) == Some(Tail(parts, i, "}"))
    decreases |parts| - i
  {
    if i < |parts| {
      FieldsJoined(enc, v, ks, parts, i + 1);
      TailNext(parts, i, "}");
    } else {
      TailEnds(parts, "}");
    }
  }

  lemma {:induction false} FieldsAllWritten<L>(enc: Encoder<L>, v: Value<L>, ks: seq<string>, i: nat)
    requires KeysOf(v, ks) && i <= |ks|
    ensures FieldsFrom(enc, v, ks, i).Some? <==>
            forall k :: i <= k < |ks| ==> ks[k] in v.fields && Canon(enc, v.fields[ks[k]]).Some?
    decreases |ks| - i
  {
    if i < |ks| {
      FieldsAllWritten(enc, v, ks, i + 1);
      FieldWritten(enc, v, ks, i);
    }
  }

  lemma FieldWritten<L>(enc: Encoder<L>, v: Value<L>, ks: seq<string>, i: nat)
    requires KeysOf(v, ks) && i < |ks|
    ensures ks[i] in v.fields
    ensures FieldsFrom(enc, v, ks, i).Some? <==>
            Canon(enc, v.fields[ks[i]]).Some? && FieldsFrom(enc, v, ks, i + 1).Some?
  {
    assert ks[i] in ks;
  }

  /** `parts` are the fields of `v` at the keys `ks`: the key's text, a colon, the value's text. */
  ghost predicate FieldTexts<L>(enc: Encoder<L>, v: Value<L>, ks: seq<string>, parts: seq<string>)
    requires v.Dict?
  {
    && |parts| == |ks|
    && forall k :: 0 <= k < |ks| ==>
         && ks[k] in v.fields && Canon(enc, v.fields[ks[k]]).Some?
         && parts[k] == enc.text(ks[k]) + ":" + Canon(enc, v.fields[ks[k]]).value
  }

  /** A map has a text exactly when all of its values have, and then it is that of its fields in
      the ascending order of their keys, separated by commas, between braces. */
  lemma DictText<L>(enc: Encoder<L>, v: Value<L>) returns (ks: seq<string>)
    requires v.Dict?
    ensures Distinct(ks) && Ascending(ks) && forall k :: k in ks <==> k in v.fields
    ensures Canon(enc, v).Some? <==> forall k :: k in v.fields ==> Canon(enc, v.fields[k]).Some?
    ensures forall parts :: FieldTexts(enc, v, ks, parts) ==> Canon(enc, v) == Some("{" + Joined(parts) + "}")
  {
    ks := Keys(v);
    SortedSeqSorted(v.fields.Keys);
    SortedIsAscending(ks);
    DictWritten(enc, v);
    forall parts | FieldTexts(enc, v, ks, parts)
      ensures Canon(enc, v) == Some("{" + Joined(parts) + "}")
    {
      DictIs(enc, v, parts);
    }
  }

  lemma DictWritten<L>(enc: Encoder<L>, v: Value<L>)
    requires v.Dict?
    ensures Canon(enc, v).Some? <==> forall k :: k in v.fields ==> Canon(enc, v.fields[k]).Some?
  {
    var ks := Keys(v);
    FieldsAllWritten(enc, v, ks, 0);
    forall k | k in v.fields
      ensures exists i :: 0 <= i < |ks| && ks[i] == k
    {
      assert k in ks;
    }
  }

  lemma DictIs<L>(enc: Encoder<L>, v: Value<L>, parts: seq<string>)
    requires v.Dict? && FieldTexts(enc, v, Keys(v), parts)
    ensures Canon(enc, v) == Some("{" + Joined(parts) + "}")
  {
    FieldsAre(enc, v, Keys(v), parts);
    FieldsJoined(enc, v, Keys(v), parts, 0);
    TailStarts("{", parts, "}");
  }

  lemma FieldsAre<L>(enc: Encoder<L>, v: Value<L>, ks: seq<string>, parts: seq<string>)
    requires v.Dict? && FieldTexts(enc, v, ks, parts)
    ensures forall k :: 0 <= k < |parts| ==> ks[k] in v.fields && Field(enc, v, ks[k]) == Some(parts[k])
  {
  }

  /** Leaves are written as they are encoded, and nil as the word for it. */
  lemma LeafText<L>(enc: Encoder<L>, text: string, leaf: L)
    ensures Canon(enc, Null) == Some("null")
    ensures Canon(enc, Text(text)) == Some(enc.text(text))
    ensures Canon(enc, Other(leaf)) == enc.other(leaf)
  {
  }

  // ---------------------------------------------------------------- what is asked of the leaves

  predicate Delimiter(c: char) {
    c == ',' || c == ':' || c == ']' || c == '}'
  }

  /** Nothing, or something that begins with a delimiter. */
  predicate Delimited(rest: string) {
    rest == "" || Delimiter(rest[0])
  }

  /** The two leaves' encodings can be told apart before a delimiter or the end. */
  ghost predicate ToldApart<L(!new)>(enc: Encoder<L>, v: Value<L>, w: Value<L>)
    requires IsAtom(v) && IsAtom(w)
  {
    AtomCode(enc, v).Some? && AtomCode(enc, w).Some? ==>
      forall x, y {:trigger AtomCode(enc, v).value + x, AtomCode(enc, w).value + y} ::
        Delimited(x) && Delimited(y) && AtomCode(enc, v).value + x == AtomCode(enc, w).value + y ==> v == w
  }

  /** A leaf's encoding is not empty and begins neither like a container nor with a delimiter. */
  predicate PlainStart(code: string) {
    code != "" && !Delimiter(code[0]) && code[0] != '{' && code[0] != '['
  }

  ghost predicate GoodEncoding<L(!new)>(enc: Encoder<L>) {
    && (forall v, w {:trigger ToldApart(enc, v, w)} :: IsAtom(v) && IsAtom(w) ==> ToldApart(enc, v, w))
    && (forall v :: IsAtom(v) && AtomCode(enc, v).Some? ==> PlainStart(AtomCode(enc, v).value))
  }

  // ---------------------------------------------------------------- injectivity

  lemma Cancel(p: string, a: string, b: string)
    requires p + a == p + b
    ensures a == b
  {
    assert a == (p + a)[|p|..];
    assert b == (p + b)[|p|..];
  }

  lemma CanonStart<L(!new)>(enc: Encoder<L>, v: Value<L>)
    requires GoodEncoding(enc) && Canon(enc, v).Some?
    ensures Canon(enc, v).value != "" && !Delimiter(Canon(enc, v).value[0])
    ensures Canon(enc, v).value[0] == '{' <==> v.Dict?
    ensures Canon(enc, v).value[0] == '[' <==> IsList(v)
  {
  }

  lemma ItemsStart<L(!new)>(enc: Encoder<L>, v: Value<L>, i: nat)
    requires GoodEncoding(enc) && IsList(v) && i <= |Items(v)| && ItemsFrom(enc, v, i).Some?
    ensures ItemsFrom(enc, v, i).value != ""
    ensures ItemsFrom(enc, v, i).value[0] == ']' <==> i == |Items(v)|
    ensures i > 0 ==> Delimiter(ItemsFrom(enc, v, i).value[0])
  {
    if i < |Items(v)| {
      CanonStart(enc, Items(v)[i]);
    }
  }

  lemma FieldsStart<L(!new)>(enc: Encoder<L>, v: Value<L>, ks: seq<string>, i: nat)
    requires GoodEncoding(enc) && KeysOf(v, ks) && i <= |ks| && FieldsFrom(enc, v, ks, i).Some?
    ensures FieldsFrom(enc, v, ks, i).value != ""
    ensures FieldsFrom(enc, v, ks, i).value[0] == '}' <==> i == |ks|
    ensures i > 0 ==> Delimiter(FieldsFrom(enc, v, ks, i).value[0])
  {
    if i < |ks| {
      var key: Value<L> := Text(ks[i]);
      assert PlainStart(AtomCode(enc, key).value);
      assert ks[i] in ks;
    }
  }

  /** Text of `v` before `x` is text of `w` before `y`. */
  ghost predicate SameText<L>(enc: Encoder<L>, v: Value<L>, w: Value<L>, x: string, y: string) {
    && Canon(enc, v).Some? && Canon(enc, w).Some? && Delimited(x) && Delimited(y)
    && Canon(enc, v).value + x == Canon(enc, w).value + y
  }

  lemma SameStart<L(!new)>(enc: Encoder<L>, v: Value<L>, w: Value<L>, x: string, y: string)
    requires GoodEncoding(enc) && SameText(enc, v, w, x, y)
    ensures (v.Dict? <==> w.Dict?) && (IsList(v) <==> IsList(w)) && (IsAtom(v) <==> IsAtom(w))
  {
    CanonStart(enc, v);
    CanonStart(enc, w);
    assert (Canon(enc, v).value + x)[0] == Canon(enc, v).value[0];
    assert (Canon(enc, w).value + y)[0] == Canon(enc, w).value[0];
  }

  /** A value's text determines where it ends and, up to string slices, the value. */
  lemma {:induction false} TextDetermines<L(!new)>(enc: Encoder<L>, v: Value<L>, w: Value<L>, x: string, y: string)
    requires GoodEncoding(enc) && SameText(enc, v, w, x, y)
    ensures Normalize(v) == Normalize(w) && x == y
    decreases Rank(v), v, 2, 0
  {
    SameStart(enc, v, w, x, y);
    if v.Dict? {
      Opened("{", FieldsFrom(enc, v, Keys(v), 0).value, FieldsFrom(enc, w, Keys(w), 0).value, x, y);
      FieldsDetermine(enc, v, w, Keys(v), Keys(w), 0, x, y);
      SameFields(v, w);
    } else if IsList(v) {
      Opened("[", ItemsFrom(enc, v, 0).value, ItemsFrom(enc, w, 0).value, x, y);
      NormalizeList(v);
      NormalizeList(w);
      ItemsDetermine(enc, v, w, 0, x, y);
      SameLists(Items(v), Items(w));
    } else {
      AtomDetermines(enc, v, w, x, y);
    }
  }

  lemma Opened(open: string, a: string, b: string, x: string, y: string)
    requires open + a + x == open + b + y
    ensures a + x == b + y
  {
    Assoc(open, a, x);
    Assoc(open, b, y);
    Cancel(open, a + x, b + y);
  }

  lemma AtomDetermines<L(!new)>(enc: Encoder<L>, v: Value<L>, w: Value<L>, x: string, y: string)
    requires GoodEncoding(enc) && SameText(enc, v, w, x, y) && IsAtom(v) && IsAtom(w)
    ensures v == w && x == y
  {
    assert ToldApart(enc, v, w);
    assert AtomCode(enc, v).value + x == AtomCode(enc, w).value + y;
    Cancel(AtomCode(enc, v).value, x, y);
  }

  ghost predicate SameItems<L>(vs: seq<Value<L>>, ws: seq<Value<L>>, i: nat) {
    |vs| == |ws| && forall k :: i <= k < |vs| ==> Normalize(vs[k]) == Normalize(ws[k])
  }

  lemma SameLists<L>(vs: seq<Value<L>>, ws: seq<Value<L>>)
    requires SameItems(vs, ws, 0)
    ensures NormalizeAll(vs) == NormalizeAll(ws)
  {
  }

  /** The text from item `i` on is a comma if one is due, the item, and the rest. */
  lemma ItemsSplit<L>(enc: Encoder<L>, v: Value<L>, i: nat, x: string)
    requires IsList(v) && i < |Items(v)| && ItemsFrom(enc, v, i).Some?
    ensures Canon(enc, Items(v)[i]).Some? && ItemsFrom(enc, v, i + 1).Some?
    ensures ItemsFrom(enc, v, i).value + x
        == Comma(i) + (Canon(enc, Items(v)[i]).value + (ItemsFrom(enc, v, i + 1).value + x))
  {
    var p, rest := Canon(enc, Items(v)[i]).value, ItemsFrom(enc, v, i + 1).value;
    Assoc(Comma(i), p + rest, x);
    Assoc(p, rest, x);
  }

  lemma {:induction false} ItemsDetermine<L(!new)>(enc: Encoder<L>, v: Value<L>, w: Value<L>, i: nat, x: string,
                                            y: string)
    requires GoodEncoding(enc) && IsList(v) && IsList(w) && i <= |Items(v)| && i <= |Items(w)|
    requires Delimited(x) && Delimited(y)
    requires ItemsFrom(enc, v, i).Some? && ItemsFrom(enc, w, i).Some?
    requires ItemsFrom(enc, v, i).value + x == ItemsFrom(enc, w, i).value + y
    ensures SameItems(Items(v), Items(w), i) && x == y
    decreases Rank(v), v, 1, |Items(v)| - i
  {
    ItemsEndTogether(enc, v, w, i, x, y);
    if i == |Items(v)| {
      Cancel("]", x, y);
    } else {
      var a, b := ItemsFrom(enc, v, i + 1).value + x, ItemsFrom(enc, w, i + 1).value + y;
      NextItemSame(enc, v, w, i, x, y);
      TextDetermines(enc, Items(v)[i], Items(w)[i], a, b);
      ItemsDetermine(enc, v, w, i + 1, x, y);
      SameItemsCons(Items(v), Items(w), i);
    }
  }

  lemma SameItemsCons<L>(vs: seq<Value<L>>, ws: seq<Value<L>>, i: nat)
    requires i < |vs| && i < |ws| && Normalize(vs[i]) == Normalize(ws[i]) && SameItems(vs, ws, i + 1)
    ensures SameItems(vs, ws, i)
  {
  }

  lemma NextItemSame<L(!new)>(enc: Encoder<L>, v: Value<L>, w: Value<L>, i: nat, x: string, y: string)
    requires GoodEncoding(enc) && IsList(v) && IsList(w) && i < |Items(v)| && i < |Items(w)|
    requires ItemsFrom(enc, v, i).Some? && ItemsFrom(enc, w, i).Some?
    requires ItemsFrom(enc, v, i).value + x == ItemsFrom(enc, w, i).value + y
    ensures ItemsFrom(enc, v, i + 1).Some? && ItemsFrom(enc, w, i + 1).Some?
    ensures SameText(enc, Items(v)[i], Items(w)[i],
                     ItemsFrom(enc, v, i + 1).value + x, ItemsFrom(enc, w, i + 1).value + y)
  {
    ItemsSplit(enc, v, i, x);
    ItemsSplit(enc, w, i, y);
    ItemsStart(enc, v, i + 1);
    ItemsStart(enc, w, i + 1);
    Cancel(Comma(i), Canon(enc, Items(v)[i]).value + (ItemsFrom(enc, v, i + 1).value + x),
           Canon(enc, Items(w)[i]).value + (ItemsFrom(enc, w, i + 1).value + y));
  }

  /** A closing bracket is never the start of another item. */
  lemma ItemsEndTogether<L(!new)>(enc: Encoder<L>, v: Value<L>, w: Value<L>, i: nat, x: string, y: string)
    requires GoodEncoding(enc) && IsList(v) && IsList(w) && i <= |Items(v)| && i <= |Items(w)|
    requires ItemsFrom(enc, v, i).Some? && ItemsFrom(enc, w, i).Some?
    requires ItemsFrom(enc, v, i).value + x == ItemsFrom(enc, w, i).value + y
    ensures i == |Items(v)| <==> i == |Items(w)|
  {
    ItemsStart(enc, v, i);
    ItemsStart(enc, w, i);
    assert (ItemsFrom(enc, v, i).value + x)[0] == ItemsFrom(enc, v, i).value[0];
    assert (ItemsFrom(enc, w, i).value + y)[0] == ItemsFrom(enc, w, i).value[0];
  }

  ghost predicate SameFieldsFrom<L>(v: Value<L>, w: Value<L>, ks: seq<string>, ls: seq<string>, i: nat)
    requires v.Dict? && w.Dict?
  {
    |ks| == |ls| && forall j :: i <= j < |ks| ==> SameField(v, w, ks[j], ls[j])
  }

  ghost predicate SameField<L>(v: Value<L>, w: Value<L>, k: string, l: string)
    requires v.Dict? && w.Dict?
  {
    k == l && k in v.fields && k in w.fields && Normalize(v.fields[k]) == Normalize(w.fields[k])
  }

  lemma FieldsSplit<L>(enc: Encoder<L>, v: Value<L>, ks: seq<string>, i: nat, x: string)
    requires KeysOf(v, ks) && i < |ks| && FieldsFrom(enc, v, ks, i).Some?
    ensures ks[i] in v.fields && Canon(enc, v.fields[ks[i]]).Some? && FieldsFrom(enc, v, ks, i + 1).Some?
    ensures FieldsFrom(enc, v, ks, i).value + x == Comma(i) + (enc.text(ks[i]) + AfterKey(enc, v, ks, i, x))
  {
    assert ks[i] in ks;
    var key, p, rest := enc.text(ks[i]), Canon(enc, v.fields[ks[i]]).value, FieldsFrom(enc, v, ks, i + 1).value;
    Assoc(Comma(i), key + ":" + p + rest, x);
    Assoc(key + ":" + p, rest, x);
    Assoc(key + ":", p, rest + x);
    Assoc(key, ":", p + (rest + x));
  }

  /** What follows key `i`. */
  ghost function AfterKey<L>(enc: Encoder<L>, v: Value<L>, ks: seq<string>, i: nat, x: string): string
    requires KeysOf(v, ks) && i < |ks|
    requires ks[i] in v.fields && Canon(enc, v.fields[ks[i]]).Some? && FieldsFrom(enc, v, ks, i + 1).Some?
  {
    ":" + (Canon(enc, v.fields[ks[i]]).value + (FieldsFrom(enc, v, ks, i + 1).value + x))
  }

  lemma KeyDetermines<L(!new)>(enc: Encoder<L>, k: string, l: string, x: string, y: string)
    requires GoodEncoding(enc) && Delimited(x) && Delimited(y) && enc.text(k) + x == enc.text(l) + y
    ensures k == l && x == y
  {
    var v: Value<L>, w: Value<L> := Text(k), Text(l);
    AtomDetermines(enc, v, w, x, y);
  }

  lemma {:induction false} FieldsDetermine<L(!new)>(enc: Encoder<L>, v: Value<L>, w: Value<L>, ks: seq<string>,
                                             ls: seq<string>,
                                                    i: nat, x: string, y: string)
    requires GoodEncoding(enc) && KeysOf(v, ks) && KeysOf(w, ls) && i <= |ks| && i <= |ls|
    requires Delimited(x) && Delimited(y)
    requires FieldsFrom(enc, v, ks, i).Some? && FieldsFrom(enc, w, ls, i).Some?
    requires FieldsFrom(enc, v, ks, i).value + x == FieldsFrom(enc, w, ls, i).value + y
    ensures SameFieldsFrom(v, w, ks, ls, i) && x == y
    decreases Rank(v), v, 1, |ks| - i
  {
    FieldsEndTogether(enc, v, w, ks, ls, i, x, y);
    if i == |ks| {
      Cancel("}", x, y);
    } else {
      NextFieldSame(enc, v, w, ks, ls, i, x, y);
      var a, b := FieldsFrom(enc, v, ks, i + 1).value + x, FieldsFrom(enc, w, ls, i + 1).value + y;
      TextDetermines(enc, v.fields[ks[i]], w.fields[ls[i]], a, b);
      FieldsDetermine(enc, v, w, ks, ls, i + 1, x, y);
      SameFieldsCons(v, w, ks, ls, i);
    }
  }

  lemma SameFieldsCons<L>(v: Value<L>, w: Value<L>, ks: seq<string>, ls: seq<string>, i: nat)
    requires v.Dict? && w.Dict? && i < |ks| && i < |ls| && SameField(v, w, ks[i], ls[i])
        && SameFieldsFrom(v, w, ks, ls, i + 1)
    ensures SameFieldsFrom(v, w, ks, ls, i)
  {
  }

  lemma NextFieldSame<L(!new)>(enc: Encoder<L>, v: Value<L>, w: Value<L>, ks: seq<string>, ls: seq<string>, i: nat,
                        x: string, y: string)
    requires GoodEncoding(enc) && KeysOf(v, ks) && KeysOf(w, ls) && i < |ks| && i < |ls|
    requires FieldsFrom(enc, v, ks, i).Some? && FieldsFrom(enc, w, ls, i).Some?
    requires FieldsFrom(enc, v, ks, i).value + x == FieldsFrom(enc, w, ls, i).value + y
    ensures ks[i] == ls[i] && ks[i] in v.fields && ks[i] in w.fields
    ensures FieldsFrom(enc, v, ks, i + 1).Some? && FieldsFrom(enc, w, ls, i + 1).Some?
    ensures SameText(enc, v.fields[ks[i]], w.fields[ls[i]],
                     FieldsFrom(enc, v, ks, i + 1).value + x, FieldsFrom(enc, w, ls, i + 1).value + y)
  {
    FieldsSplit(enc, v, ks, i, x);
    FieldsSplit(enc, w, ls, i, y);
    FieldsStart(enc, v, ks, i + 1);
    FieldsStart(enc, w, ls, i + 1);
    Cancel(Comma(i), enc.text(ks[i]) + AfterKey(enc, v, ks, i, x), enc.text(ls[i]) + AfterKey(enc, w, ls, i, y));
    KeyDetermines(enc, ks[i], ls[i], AfterKey(enc, v, ks, i, x), AfterKey(enc, w, ls, i, y));
    Cancel(":", Canon(enc, v.fields[ks[i]]).value + (FieldsFrom(enc, v, ks, i + 1).value + x),
           Canon(enc, w.fields[ls[i]]).value + (FieldsFrom(enc, w, ls, i + 1).value + y));
  }

  lemma FieldsEndTogether<L(!new)>(enc: Encoder<L>, v: Value<L>, w: Value<L>, ks: seq<string>, ls: seq<string>,
                                   i: nat, x: string, y: string)
    requires GoodEncoding(enc) && KeysOf(v, ks) && KeysOf(w, ls) && i <= |ks| && i <= |ls|
    requires FieldsFrom(enc, v, ks, i).Some? && FieldsFrom(enc, w, ls, i).Some?
    requires FieldsFrom(enc, v, ks, i).value + x == FieldsFrom(enc, w, ls, i).value + y
    ensures i == |ks| <==> i == |ls|
  {
    FieldsStart(enc, v, ks, i);
    FieldsStart(enc, w, ls, i);
    assert (FieldsFrom(enc, v, ks, i).value + x)[0] == FieldsFrom(enc, v, ks, i).value[0];
    assert (FieldsFrom(enc, w, ls, i).value + y)[0] == FieldsFrom(enc, w, ls, i).value[0];
  }

  /** Two maps with the same sorted keys and the same values under them are the same. */
  lemma SameFields<L>(v: Value<L>, w: Value<L>)
    requires v.Dict? && w.Dict? && SameFieldsFrom(v, w, Keys(v), Keys(w), 0)
    ensures Normalize(v) == Normalize(w)
  {
    assert Keys(v) == Keys(w);
    forall k
      ensures k in v.fields <==> k in w.fields
      ensures k in v.fields ==> SameField(v, w, k, k)
    {
      SameFieldAt(v, w, k);
    }
    SameNormalFields(v, w);
  }

  lemma SameNormalFields<L>(v: Value<L>, w: Value<L>)
    requires v.Dict? && w.Dict? && v.fields.Keys == w.fields.Keys
    requires forall k :: k in v.fields ==> SameField(v, w, k, k)
    ensures Normalize(v) == Normalize(w)
  {
    assert Normalize(v).fields == Normalize(w).fields;
  }

  lemma SameFieldAt<L>(v: Value<L>, w: Value<L>, k: string)
    requires v.Dict? && w.Dict? && Keys(v) == Keys(w) && SameFieldsFrom(v, w, Keys(v), Keys(w), 0)
    ensures k in v.fields <==> k in w.fields
    ensures k in v.fields ==> SameField(v, w, k, k)
  {
    assert k in v.fields <==> k in Keys(v);
    assert k in w.fields <==> k in Keys(w);
    if k in Keys(v) {
      var j :| 0 <= j < |Keys(v)| && Keys(v)[j] == k;
      assert SameField(v, w, Keys(v)[j], Keys(w)[j]);
    }
  }

  /** Equal bytes exactly when the values are equal, identifying a string slice with a list of
      the same strings. */
  lemma CanonicalIff<L(!new)>(enc: Encoder<L>, v: Value<L>, w: Value<L>)
    requires GoodEncoding(enc) && Canon(enc, v).Some?
    ensures Canon(enc, v) == Canon(enc, w) <==> Normalize(v) == Normalize(w)
  {
    CanonOfNormal(enc, v);
    CanonOfNormal(enc, w);
    if Canon(enc, v) == Canon(enc, w) {
      TextDetermines(enc, v, w, "", "");
    }
  }

  lemma {:induction false} CanonOfNormal<L>(enc: Encoder<L>, v: Value<L>)
    ensures Canon(enc, v) == Canon(enc, Normalize(v))
    decreases Rank(v), v, 2, 0
  {
    if v.Dict? {
      assert Normalize(v).fields.Keys == v.fields.Keys;
      FieldsOfNormal(enc, v, Keys(v), 0);
    } else if IsList(v) {
      NormalizeList(v);
      ItemsOfNormal(enc, v, 0);
    }
  }

  lemma {:induction false} ItemsOfNormal<L>(enc: Encoder<L>, v: Value<L>, i: nat)
    requires IsList(v) && i <= |Items(v)| && Normalize(v) == List(NormalizeAll(Items(v)))
    ensures ItemsFrom(enc, v, i) == ItemsFrom(enc, Normalize(v), i)
    decreases Rank(v), v, 1, |Items(v)| - i
  {
    if i < |Items(v)| {
      CanonOfNormal(enc, Items(v)[i]);
      ItemsOfNormal(enc, v, i + 1);
    }
  }

  lemma {:induction false} FieldsOfNormal<L>(enc: Encoder<L>, v: Value<L>, ks: seq<string>, i: nat)
    requires KeysOf(v, ks) && i <= |ks|
    ensures FieldsFrom(enc, v, ks, i) == FieldsFrom(enc, Normalize(v), ks, i)
    decreases Rank(v), v, 1, |ks| - i
  {
    if i < |ks| {
      assert ks[i] in ks;
      CanonOfNormal(enc, v.fields[ks[i]]);
      FieldsOfNormal(enc, v, ks, i + 1);
    }
  }
}
