/** The run-configuration dictionary of the configuration generator and its
    XML serialisation: an insertion-ordered key -> (scalar | list) mapping,
    written as one element per key inside an <input> root. */
module ConfigDict {
  import opened Numerics
  import opened Sequences

  /** A Python scalar held in the dictionary. */
  datatype Scalar = Text(s: string) | Int(i: int) | Real(r: real) | Flag(b: bool)

  /** A dictionary entry: a scalar, or a list or numpy array of scalars. */
  datatype Value = Single(x: Scalar) | Many(items: seq<Scalar>)

  /** A Python dict: its keys in insertion order and what each maps to. */
  datatype Dict = Dict(keys: seq<string>, entries: map<string, Value>)

  ghost predicate WellFormed(d: Dict) {
    && (forall i, j :: 0 <= i < j < |d.keys| ==> d.keys[i] != d.keys[j])
    && (forall k :: k in d.entries <==> k in d.keys)
  }

  /** d[key] = v. */
  function Set(d: Dict, key: string, v: Value): (r: Dict)
    ensures r.entries == d.entries[key := v]
  {
    if key in d.entries then Dict(d.keys, d.entries[key := v])
    else Dict(d.keys + [key], d.entries[key := v])
  }

  /** d[key] = v keeps the dictionary well formed: an existing key keeps its
      place, a new key goes last, and no other key moves. */
  lemma SetWellFormed(d: Dict, key: string, v: Value)
    requires WellFormed(d)
    ensures WellFormed(Set(d, key, v))
    ensures |Set(d, key, v).keys| == if key in d.entries then |d.keys| else |d.keys| + 1
    ensures Set(d, key, v).keys[..|d.keys|] == d.keys
    ensures key !in d.entries ==> Set(d, key, v).keys[|d.keys|] == key
  {
  }

  /** str() of a scalar. Python's text for a float is not modelled: `fmt`
      stands for it. */
  function PyStr(x: Scalar, fmt: real -> string): string {
    match x
    case Text(s) => s
    case Int(i) => DecimalString(i)
    case Real(r) => fmt(r)
    case Flag(b) => if b then "True" else "False"
  }

  const XmlDeclaration: string := "<?xml version=\"1.0\" ?>\n"
  const XmlHeader: string := XmlDeclaration + "<input>\n"
  const XmlFooter: string := "</input>"

  /** The line for item i of a list-valued entry. */
  function ItemLine(key: string, i: nat, x: Scalar, fmt: real -> string): string {
    "\t\t<" + key + DecimalString(i) + ">" + PyStr(x, fmt) + "</" + key + DecimalString(i) + ">\n"
  }

  /** The item lines of xs, in order, numbered from 0. */
  function ItemLines(key: string, xs: seq<Scalar>, fmt: real -> string): (r: seq<string>)
    ensures |r| == |xs|
  {
    seq(|xs|, i requires 0 <= i < |xs| => ItemLine(key, i, xs[i], fmt))
  }

  /** What goes between the opening and closing tag of an entry. */
  function Body(key: string, v: Value, fmt: real -> string): string {
    match v
    case Single(x) => PyStr(x, fmt)
    case Many(xs) => "\n" + Flatten(ItemLines(key, xs, fmt)) + "\t"
  }

  /** The element written for one entry. */
  function Element(key: string, v: Value, fmt: real -> string): string {
    "\t<" + key + ">" + Body(key, v, fmt) + "</" + key + ">\n"
  }

  /** The elements for the keys ks, in order. */
  function Elements(d: Dict, ks: seq<string>, fmt: real -> string): (r: seq<string>)
    requires forall k :: k in ks ==> k in d.entries
    ensures |r| == |ks|
  {
    seq(|ks|, i requires 0 <= i < |ks| => Element(ks[i], d.entries[ks[i]], fmt))
  }

  /** The text print_xml_config writes for d. */
  function XmlConfig(d: Dict, fmt: real -> string): string
    requires WellFormed(d)
  {
    XmlHeader + Flatten(Elements(d, d.keys, fmt)) + XmlFooter
  }

  // ---------------------------------------------------------------------
  // Shape of the text

  /** Exactly one element per key, in the dictionary's order: the text is the
      header, the elements of the keys before key i, the element of key i,
      the elements of the keys after it, and the footer. */
  lemma ElementOfKey(d: Dict, i: nat, fmt: real -> string)
    requires WellFormed(d) && i < |d.keys|
    ensures
      var es := Elements(d, d.keys, fmt);
      && es[i] == Element(d.keys[i], d.entries[d.keys[i]], fmt)
      && XmlConfig(d, fmt) == XmlHeader + (Flatten(es[..i]) + es[i] + Flatten(es[i + 1..])) + XmlFooter
  {
    FlattenSplit(Elements(d, d.keys, fmt), i);
  }

  /** The text opens with the XML declaration and <input>, closes with
      </input>, and has no newline after it. */
  lemma XmlFrame(d: Dict, fmt: real -> string)
    requires WellFormed(d)
    ensures XmlConfig(d, fmt)[..|XmlHeader|] == XmlHeader
    ensures XmlConfig(d, fmt)[|XmlConfig(d, fmt)| - |XmlFooter|..] == XmlFooter
    ensures XmlConfig(d, fmt)[|XmlConfig(d, fmt)| - 1] == '>'
  {
  }

  /** The body of a list entry: a newline, then the line
      '\t\t<key{i}>x_i</key{i}>\n' for each item i in order, then a tab
      before the closing tag. */
  lemma ListBody(key: string, xs: seq<Scalar>, i: nat, fmt: real -> string)
    requires i < |xs|
    ensures
      var ls := ItemLines(key, xs, fmt);
      && ls[i] == "\t\t<" + key + DecimalString(i) + ">" + PyStr(xs[i], fmt) + "</" + key + DecimalString(i) + ">\n"
      && Body(key, Many(xs), fmt) == "\n" + (Flatten(ls[..i]) + ls[i] + Flatten(ls[i + 1..])) + "\t"
  {
    FlattenSplit(ItemLines(key, xs, fmt), i);
  }

  /** A list entry with no items is an empty line pair. */
  lemma EmptyListBody(key: string, fmt: real -> string)
    ensures Element(key, Many([]), fmt) == "\t<" + key + ">" + "\n\t" + "</" + key + ">\n"
  {
    assert Flatten(ItemLines(key, [], fmt)) == [];
  }

  // ---------------------------------------------------------------------
  // Updating an entry

  /** Setting a key twice leaves what setting it once to the second value
      leaves: the key keeps the place its first setting gave it. */
  lemma SetTwice(d: Dict, key: string, a: Value, b: Value)
    ensures Set(Set(d, key, a), key, b) == Set(d, key, b)
  {
    assert d.entries[key := a][key := b] == d.entries[key := b];
  }

  /** d[key] = v for a key not yet present: the text gains the new key's
      element last, just before </input>, and is otherwise unchanged. */
  lemma XmlAfterAdd(d: Dict, key: string, v: Value, fmt: real -> string)
    requires WellFormed(d) && key !in d.entries
    ensures WellFormed(Set(d, key, v))
    ensures XmlConfig(Set(d, key, v), fmt) == XmlHeader + (Flatten(Elements(d, d.keys, fmt)) + Element(key, v, fmt)) + XmlFooter
  {
    SetWellFormed(d, key, v);
    var e := Set(d, key, v);
    assert Elements(e, e.keys, fmt) == Elements(d, d.keys, fmt) + [Element(key, v, fmt)];
    FlattenAppend(Elements(d, d.keys, fmt), [Element(key, v, fmt)]);
    FlattenSingleton(Element(key, v, fmt));
  }

  /** d[key] = v for the key at position i: only that key's element changes,
      and it stays where it was. */
  lemma XmlAfterUpdate(d: Dict, key: string, v: Value, i: nat, fmt: real -> string)
    requires WellFormed(d) && i < |d.keys| && d.keys[i] == key
    ensures WellFormed(Set(d, key, v))
    ensures
      var es := Elements(d, d.keys, fmt);
      XmlConfig(Set(d, key, v), fmt) == XmlHeader + (Flatten(es[..i]) + Element(key, v, fmt) + Flatten(es[i + 1..])) + XmlFooter
  {
    SetWellFormed(d, key, v);
    var e := Set(d, key, v);
    var es, es' := Elements(d, d.keys, fmt), Elements(e, e.keys, fmt);
    assert es' == es[i := Element(key, v, fmt)];
    assert es'[..i] == es[..i] && es'[i + 1..] == es[i + 1..];
    FlattenSplit(es', i);
  }
}
