/**
 * The colour tokens of the theme (packages/gitbook/tailwind.config.ts):
 * maps from shade keys to CSS colour values, filled in place by loops.
 * Key sets and values are modelled exactly; the floating-point shade
 * curve of shadesOfColor is not.
 */
module ThemeTokens {
  import opened Numerals
  import opened ColorCodec

  /** The colour categories a token set can be filtered by. */
  datatype ColorCategory = Backgrounds | Components | Accents | Borders | Text

  /** The ten shades every palette has. */
  const Shades: seq<nat> := [50, 100, 200, 300, 400, 500, 600, 700, 800, 900]

  /** `String(s)` for each shade `s`, in the same order. */
  function ShadeKeys(): seq<string> {
    ["50", "100", "200", "300", "400", "500", "600", "700", "800", "900"]
  }

  /** indexKeys: `String(i)` for i in 0 .. 12. */
  function IndexKeys(): seq<string> {
    ["0", "1", "2", "3", "4", "5", "6", "7", "8", "9", "10", "11", "12"]
  }

  /** The named keys every palette of CSS variables has, in the order they
      are written. */
  function NamedKeys(): seq<string> {
    ["base", "subtle", "muted", "strong", "bold"]
  }

  /** The shade keys are the decimal numerals of the shades: `String(s)`. */
  lemma ShadeKeyTable()
    ensures |ShadeKeys()| == |Shades|
    ensures forall i :: 0 <= i < |Shades| ==> ShadeKeys()[i] == DecimalString(Shades[i])
  {
    assert DecimalString(5) == "5";
    assert DecimalString(50) == "50";
    assert DecimalString(100) == "100";
    assert DecimalString(200) == "200";
    assert DecimalString(300) == "300";
    assert DecimalString(400) == "400";
    assert DecimalString(500) == "500";
    assert DecimalString(600) == "600";
    assert DecimalString(700) == "700";
    assert DecimalString(800) == "800";
    assert DecimalString(900) == "900";
  }

  /** The index keys are the decimal numerals `String(i)` of 0 .. 12. */
  lemma IndexKeyTable()
    ensures |IndexKeys()| == 13
    ensures forall i :: 0 <= i < |IndexKeys()| ==> IndexKeys()[i] == DecimalString(i)
  {
    assert DecimalString(1) == "1";
    assert DecimalString(10) == "10";
    assert DecimalString(11) == "11";
    assert DecimalString(12) == "12";
  }

  /** No named key and not "DEFAULT" begins with a decimal digit. */
  lemma WordKeys()
    ensures forall j :: 0 <= j < |NamedKeys()| ==> |NamedKeys()[j]| > 0 && !IsDecimalDigit(NamedKeys()[j][0])
    ensures !IsDecimalDigit("DEFAULT"[0])
  {
  }

  /** No key occurs twice in the list. */
  ghost predicate Distinct(keys: seq<string>) {
    forall i, j :: 0 <= i < j < |keys| ==> keys[i] != keys[j]
  }

  /** Both numeral tables are free of duplicates, because different
      numbers have different numerals. */
  lemma {:induction false} KeyTablesDistinct()
    ensures Distinct(ShadeKeys()) && Distinct(IndexKeys())
  {
    ShadeKeyTable();
    IndexKeyTable();
    forall i, j | 0 <= i < j < |ShadeKeys()| ensures ShadeKeys()[i] != ShadeKeys()[j] {
      DecimalStringInjective(Shades[i], Shades[j]);
    }
    forall i, j | 0 <= i < j < |IndexKeys()| ensures IndexKeys()[i] != IndexKeys()[j] {
      DecimalStringInjective(i, j);
    }
  }

  /** No key of `a` is a key of `b`. */
  ghost predicate Disjoint(a: seq<string>, b: seq<string>) {
    forall k :: k in a ==> k !in b
  }

  /** The shade keys and the index keys are disjoint: different numbers
      have different numerals. */
  lemma {:induction false} ShadesAreNotIndices()
    ensures Disjoint(ShadeKeys(), IndexKeys())
  {
    ShadeKeyTable();
    IndexKeyTable();
    forall i, j | 0 <= i < |ShadeKeys()| && 0 <= j < |IndexKeys()|
      ensures ShadeKeys()[i] != IndexKeys()[j]
    {
      DecimalStringInjective(Shades[i], j);
    }
  }

  /** A list of numerals and a list of words share no key: a numeral
      begins with a digit, a word does not. */
  lemma {:induction false} NumeralsAreNotWords(numerals: seq<string>, words: seq<string>)
    requires forall i :: 0 <= i < |numerals| ==> |numerals[i]| > 0 && AllDecimal(numerals[i])
    requires forall j :: 0 <= j < |words| ==> |words[j]| > 0 && !IsDecimalDigit(words[j][0])
    ensures Disjoint(numerals, words)
  {
    forall i, j | 0 <= i < |numerals| && 0 <= j < |words|
      ensures numerals[i] != words[j]
    {
      assert IsDecimalDigit(numerals[i][0]);
    }
  }

  /** The three groups of keys are pairwise disjoint, and "DEFAULT" is not
      a shade key while "500" is. */
  lemma {:induction false} KeyGroupsDisjoint()
    ensures Disjoint(ShadeKeys(), IndexKeys()) && Disjoint(ShadeKeys(), NamedKeys())
    ensures Disjoint(IndexKeys(), NamedKeys())
    ensures "DEFAULT" !in ShadeKeys() && "500" in ShadeKeys()
  {
    ShadeKeyTable();
    IndexKeyTable();
    WordKeys();
    ShadesAreNotIndices();
    NumeralsAreNotWords(ShadeKeys(), NamedKeys());
    NumeralsAreNotWords(IndexKeys(), NamedKeys());
    NumeralsAreNotWords(ShadeKeys(), ["DEFAULT"]);
    assert ShadeKeys()[5] == "500";
  }

  /** A key of a duplicate-free list is not among the keys before it. */
  lemma NextKeyIsNew(keys: seq<string>, i: nat)
    requires Distinct(keys) && i < |keys|
    ensures keys[i] !in keys[..i]
  {
  }

  /** `m` with each key of `keys`, in list order, set to `value(key)`. */
  function Extend(m: map<string, string>, keys: seq<string>, value: string -> string): (r: map<string, string>)
    ensures forall k :: k in r <==> k in m || k in keys
    ensures forall k :: k in r ==> r[k] == if k in keys then value(k) else m[k]
  {
    if keys == [] then m else
    var init := keys[..|keys| - 1];
    assert keys == init + [keys[|keys| - 1]];
    Extend(m, init, value)[keys[|keys| - 1] := value(keys[|keys| - 1])]
  }

  /** Extending by distinct keys none of which is already there adds one
      entry per key. */
  lemma {:induction false} ExtendSize(m: map<string, string>, keys: seq<string>, value: string -> string)
    requires Distinct(keys) && forall k :: k in keys ==> k !in m
    ensures |Extend(m, keys, value)| == |m| + |keys|
  {
    if keys != [] {
      var init := keys[..|keys| - 1];
      assert keys == init + [keys[|keys| - 1]];
      ExtendSize(m, init, value);
      NextKeyIsNew(keys, |keys| - 1);
    }
  }

  /** The loop `for (const key of keys) m[key] = value(key)`. */
  method AssignEach(m0: map<string, string>, keys: seq<string>, value: string -> string) returns (m: map<string, string>)
    ensures m == Extend(m0, keys, value)
  {
    m := m0;
    for i := 0 to |keys|
      invariant m == Extend(m0, keys[..i], value)
    {
      assert keys[..i + 1][..i] == keys[..i];
      m := m[keys[i] := value(keys[i])];
    }
    assert keys[..|keys|] == keys;
  }

  /** The CSS value that refers to the variable `--<varName>-<key>`; the
      variable name and the key can be read back from it. */
  function VarRef(varName: string, key: string): (r: string)
    ensures |r| == |varName| + |key| + 13
    ensures r[10..10 + |varName|] == varName && r[11 + |varName|..|r| - 2] == key
  {
    "rgb(var(--" + varName + "-" + key + "))"
  }

  /** The reference generateVarShades writes for each key. */
  function VarColor(varName: string): string -> string {
    k => VarRef(varName, k)
  }

  /** The palette generateVarShades builds: the shade keys, then the index
      keys when there is no filter, then the named keys. */
  function VarShades(varName: string, filter: seq<ColorCategory>): map<string, string> {
    var shades := Extend(map[], ShadeKeys(), VarColor(varName));
    var all := if |filter| == 0 then Extend(shades, IndexKeys(), VarColor(varName)) else shades;
    Extend(all, NamedKeys(), VarColor(varName))
  }

  /** Extending by three disjoint groups of distinct keys, the middle one
      only when `withMiddle` holds, gives one entry per key. */
  lemma ThreeGroupsSize(first: seq<string>, middle: seq<string>, last: seq<string>, withMiddle: bool, value: string -> string)
    requires Distinct(first) && Distinct(middle) && Distinct(last)
    requires Disjoint(first, middle) && Disjoint(first, last) && Disjoint(middle, last)
    ensures var m1 := Extend(map[], first, value);
      var m2 := if withMiddle then Extend(m1, middle, value) else m1;
      |Extend(m2, last, value)| == |first| + (if withMiddle then |middle| else 0) + |last|
  {
    var m1 := Extend(map[], first, value);
    ExtendSize(map[], first, value);
    if withMiddle {
      ExtendSize(m1, middle, value);
      ExtendSize(Extend(m1, middle, value), last, value);
    } else {
      ExtendSize(m1, last, value);
    }
  }

  /** generateVarShades: a palette of references to the CSS variables
      `--<varName>-<key>`. */
  method GenerateVarShades(varName: string, filter: seq<ColorCategory> := []) returns (result: map<string, string>)
    ensures result == VarShades(varName, filter)
  {
    result := AssignEach(map[], ShadeKeys(), VarColor(varName));
    if |filter| == 0 {
      result := AssignEach(result, IndexKeys(), VarColor(varName));
    }
    // `result.base = …` through `result.bold = …`, in that order
    result := AssignEach(result, NamedKeys(), VarColor(varName));
  }

  /** The palette has the shade keys and the five named keys always, the
      index keys "0" .. "12" exactly when the filter is empty, and nothing
      else. */
  lemma VarShadesKeys(varName: string, filter: seq<ColorCategory>)
    ensures forall k :: k in VarShades(varName, filter) <==> k in ShadeKeys() || (|filter| == 0 && k in IndexKeys()) || k in NamedKeys()
  {
  }

  /** Every entry refers to the CSS variable of its own key. */
  lemma VarShadesValues(varName: string, filter: seq<ColorCategory>)
    ensures forall k :: k in VarShades(varName, filter) ==> VarShades(varName, filter)[k] == VarRef(varName, k)
  {
  }

  /** The palette has 10 + 13 + 5 entries without a filter and 10 + 5 with
      one: no key group overwrites another. */
  lemma VarShadesSize(varName: string, filter: seq<ColorCategory>)
    ensures |VarShades(varName, filter)| == if |filter| == 0 then 28 else 15
  {
    KeyGroupsDisjoint();
    KeyTablesDistinct();
    NamedKeysDistinct();
    ThreeGroupsSize(ShadeKeys(), IndexKeys(), NamedKeys(), |filter| == 0, VarColor(varName));
  }

  /** The named keys are five different keys. */
  lemma NamedKeysDistinct()
    ensures Distinct(NamedKeys())
  {
  }

  /** shadesOfColor, its key structure: one entry per shade, whose value is
      `tint(s)`, the colour the shade curve gives for shade `s`. */
  method ShadesOfColor(tint: nat -> string) returns (out: map<string, string>)
    ensures forall k :: k in out <==> k in ShadeKeys()
    ensures forall i :: 0 <= i < |Shades| ==> out[ShadeKeys()[i]] == tint(Shades[i])
  {
    KeyTablesDistinct();
    out := map[];
    for i := 0 to |Shades|
      invariant forall k :: k in out <==> k in ShadeKeys()[..i]
      invariant forall j :: 0 <= j < i ==> out[ShadeKeys()[j]] == tint(Shades[j])
    {
      var key := ShadeKeys()[i];
      assert ShadeKeys()[..i + 1] == ShadeKeys()[..i] + [key];
      out := out[key := tint(Shades[i])];
    }
    assert ShadeKeys()[..|Shades|] == ShadeKeys();
  }

  /** The grey generateShades falls back on. */
  function FallbackGrey(): string {
    "#808080"
  }

  /** The colour generateShades uses for `key`:
      `raw[key] ?? raw['500'] ?? '#808080'`: the table's own colour for
      `key`, else its `500` colour, and the grey only when the table has
      neither. */
  function ShadeHex(raw: map<string, string>, key: string): (r: string)
    ensures key in raw ==> r == raw[key]
    ensures key !in raw && "500" in raw ==> r == raw["500"]
    ensures key !in raw && "500" !in raw ==> r == FallbackGrey()
  {
    if key in raw then raw[key] else if "500" in raw then raw["500"] else FallbackGrey()
  }

  /** The Tailwind colour value of a hex colour, with an alpha slot: for
      `#rrggbb` it is `rgb(r g b / <alpha-value>)` with the components in
      decimal. */
  function AlphaColor(hex: string): (r: string)
    ensures IsHexColor(hex) ==>
      r == "rgb(" + (DecimalString(HexValue(hex[1..3])) + " " + DecimalString(HexValue(hex[3..5]))
                     + " " + DecimalString(HexValue(hex[5..7]))) + " / <alpha-value>)"
  {
    "rgb(" + HexToRgb(hex) + " / <alpha-value>)"
  }

  /** The colour generateShades writes for each key. */
  function ShadeColor(raw: map<string, string>): string -> string {
    k => AlphaColor(ShadeHex(raw, k))
  }

  /** `map['DEFAULT'] = map['500'] ?? '#808080'`: one key more, and every
      other entry kept. */
  function WithDefault(m: map<string, string>): (r: map<string, string>)
    ensures forall k :: k in r <==> k in m || k == "DEFAULT"
    ensures forall k :: k in m && k != "DEFAULT" ==> r[k] == m[k]
    ensures r["DEFAULT"] == if "500" in m then m["500"] else FallbackGrey()
  {
    m["DEFAULT" := if "500" in m then m["500"] else FallbackGrey()]
  }

  /** The palette generateShades builds from the shade table `raw`. */
  function ShadeTable(raw: map<string, string>): map<string, string> {
    WithDefault(Extend(map[], ShadeKeys(), ShadeColor(raw)))
  }

  /** generateShades: one Tailwind colour per shade of the colour table
      `raw`, then `DEFAULT`. */
  method GenerateShades(raw: map<string, string>) returns (m: map<string, string>)
    ensures m == ShadeTable(raw)
  {
    m := AssignEach(map[], ShadeKeys(), ShadeColor(raw));
    m := WithDefault(m);
  }

  /** The palette has the ten shade keys and "DEFAULT", and nothing else. */
  lemma ShadeTableKeys(raw: map<string, string>)
    ensures forall k :: k in ShadeTable(raw) <==> k in ShadeKeys() || k == "DEFAULT"
  {
  }

  /** Hence eleven entries. */
  lemma ShadeTableSize(raw: map<string, string>)
    ensures |ShadeTable(raw)| == |Shades| + 1
  {
    KeyGroupsDisjoint();
    KeyTablesDistinct();
    ShadeKeyTable();
    var shades := Extend(map[], ShadeKeys(), ShadeColor(raw));
    ExtendSize(map[], ShadeKeys(), ShadeColor(raw));
    assert "DEFAULT" !in shades;
    assert |WithDefault(shades)| == |shades| + 1;
  }

  /** Each shade entry is the alpha colour of the hex colour chosen for it. */
  lemma ShadeTableValues(raw: map<string, string>)
    ensures forall k :: k in ShadeKeys() ==> ShadeTable(raw)[k] == AlphaColor(ShadeHex(raw, k))
  {
    KeyGroupsDisjoint();
  }

  /** `DEFAULT` is the `500` entry: the `'#808080'` fallback of the last
      assignment is never taken. */
  lemma ShadeTableDefault(raw: map<string, string>)
    ensures "500" in ShadeTable(raw) && ShadeTable(raw)["DEFAULT"] == ShadeTable(raw)["500"]
  {
    KeyGroupsDisjoint();
  }

  /** When `raw` has every shade key, as the table shadesOfColor returns
      does, neither fallback of `raw[key] ?? raw['500'] ?? '#808080'` is
      taken. */
  lemma ShadeTableOfFullTable(raw: map<string, string>)
    requires forall k :: k in ShadeKeys() ==> k in raw
    ensures forall k :: k in ShadeKeys() ==> ShadeTable(raw)[k] == AlphaColor(raw[k])
  {
    ShadeTableValues(raw);
  }

  /** When the colour table holds a `#rrggbb` colour for a shade key, its
      palette entry is `rgb(r g b / <alpha-value>)`, with r, g, b in 0..255
      read from the colour's digit pairs. */
  lemma {:induction false} ShadeTableOfHex(raw: map<string, string>, key: string)
    requires key in ShadeKeys() && key in raw && IsHexColor(raw[key])
    ensures var h := raw[key];
      var r, g, b := HexValue(h[1..3]), HexValue(h[3..5]), HexValue(h[5..7]);
      && r <= 255 && g <= 255 && b <= 255
      && ShadeTable(raw)[key]
         == "rgb(" + (DecimalString(r) + " " + DecimalString(g) + " " + DecimalString(b)) + " / <alpha-value>)"
  {
    ShadeTableValues(raw);
    assert HexToRgb(raw[key]) != "";
  }
}
