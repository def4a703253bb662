/** The fixed category-to-code tables of the service (`label_encoders` in app.py)
    and the dictionary lookup that the request handler performs on them. */
module Encoders {
  import opened Json

  /** A table from category name to integer code. */
  type Table = map<string, nat>

  /** Python's `{name: idx for idx, name in enumerate(names)}`: entries are added in list
      order, so a later duplicate would overwrite an earlier one. */
  function Enumerate(names: seq<string>): Table
  {
    if names == [] then map[]
    else Enumerate(names[..|names| - 1])[names[|names| - 1] := |names| - 1]
  }

  predicate Distinct(names: seq<string>)
  {
    forall i, j :: 0 <= i < j < |names| ==> names[i] != names[j]
  }

  /** No two categories share a code. */
  predicate Injective(t: Table)
  {
    forall a, b :: a in t && b in t && t[a] == t[b] ==> a == b
  }

  /** A table with exactly n categories whose codes are exactly 0 .. n-1, each used once. */
  predicate IsCodeTable(t: Table, n: nat)
  {
    && |t| == n
    && Injective(t)
    && (forall k :: k in t ==> t[k] < n)
    && (forall c: nat :: c < n ==> c in t.Values)
  }

  // The four tables, in the order the feature vector reads them.

  const SexCodes: Table := map["Male" := 1, "Female" := 0]

  const Countries: seq<string> :=
    ["France", "Germany", "South Africa", "Brazil", "Canada",
     "India", "United Kingdom", "Australia", "United States", "China"]

  const TransportModes: seq<string> :=
    ["Bus", "Voiture (diesel)", "Train (intercités)", "Moto", "Métro",
     "Train (diesel)", "Train (électrique)", "Tramway", "Voiture (électrique)",
     "TGV", "Voiture (essence)"]

  const EnergyClasses: seq<string> := ["A", "B", "C", "D", "E", "F", "G"]

  const CountryCodes: Table := Enumerate(Countries)
  const TransportCodes: Table := Enumerate(TransportModes)
  const EnergyClassCodes: Table := Enumerate(EnergyClasses)

  /** What `table[value]` does in Python when the table has string keys. */
  datatype LookupResult =
    | Found(code: nat)
    | KeyError(key: JVal)   // the exception carries the looked-up value itself
    | TypeError             // the value is a list or a dict

  function Lookup(t: Table, v: JVal): LookupResult
  {
    if !Hashable(v) then TypeError
    else if v.Str? && v.s in t then Found(t[v.s])
    else KeyError(v)
  }

  /** The keys of an enumerated table are exactly the listed names. */
  lemma {:induction false} EnumerateKeys(names: seq<string>)
    ensures Enumerate(names).Keys == set x | x in names
  {
    if names != [] {
      var init := names[..|names| - 1];
      EnumerateKeys(init);
      assert names == init + [names[|names| - 1]];
    }
  }

  /** With distinct names, the i-th name gets code i. */
  lemma {:induction false} EnumerateAt(names: seq<string>, i: nat)
    requires Distinct(names) && i < |names|
    ensures names[i] in Enumerate(names) && Enumerate(names)[names[i]] == i
  {
    var n := |names|;
    if i < n - 1 {
      var init := names[..n - 1];
      EnumerateAt(init, i);
    }
  }

  /** With distinct names, the enumerated table is a code table of the list's length. */
  lemma {:induction false} EnumerateIsCodeTable(names: seq<string>)
    requires Distinct(names)
    ensures IsCodeTable(Enumerate(names), |names|)
  {
    var t := Enumerate(names);
    if names != [] {
      var n := |names|;
      var init := names[..n - 1];
      var last := names[n - 1];
      EnumerateIsCodeTable(init);
      EnumerateKeys(init);
      var t0 := Enumerate(init);
      assert last !in t0;
      assert t == t0[last := n - 1];
      assert t.Keys == t0.Keys + {last};
      forall c: nat | c < n ensures c in t.Values {
        if c == n - 1 {
          assert t[last] == c;
        } else {
          assert c in t0.Values;
          var k :| k in t0 && t0[k] == c;
          assert k != last && t[k] == c;
        }
      }
    }
  }

  /** Every encoding table assigns each of the codes 0 .. n-1 to exactly one category:
      2 sexes, 10 countries, 11 transport modes, 7 energy classes. */
  lemma TablesAreCodeTables()
    ensures IsCodeTable(SexCodes, 2)
    ensures IsCodeTable(CountryCodes, 10)
    ensures IsCodeTable(TransportCodes, 11)
    ensures IsCodeTable(EnergyClassCodes, 7)
  {
    SexIsCodeTable();
    CountriesDistinct();
    EnumerateIsCodeTable(Countries);
    TransportModesDistinct();
    EnumerateIsCodeTable(TransportModes);
    EnumerateIsCodeTable(EnergyClasses);
  }

  lemma SexIsCodeTable()
    ensures IsCodeTable(SexCodes, 2)
  {
    forall c: nat | c < 2 ensures c in SexCodes.Values {
      if c == 0 { assert SexCodes["Female"] == c; } else { assert SexCodes["Male"] == c; }
    }
  }

  lemma CountriesDistinct()
    ensures Distinct(Countries)
  {
  }

  lemma TransportModesDistinct()
    ensures Distinct(TransportModes)
  {
  }

  /** The codes the service assigns to the categories of its own example request,
      and the energy classes A .. G in alphabetical order. */
  lemma KnownCodes()
    ensures SexCodes["Male"] == 1 && SexCodes["Female"] == 0
    ensures "France" in CountryCodes && CountryCodes["France"] == 0
    ensures "Voiture (diesel)" in TransportCodes && TransportCodes["Voiture (diesel)"] == 1
    ensures "C" in EnergyClassCodes && EnergyClassCodes["C"] == 2
    ensures forall i :: 0 <= i < |EnergyClasses| ==>
      EnergyClasses[i] in EnergyClassCodes && EnergyClassCodes[EnergyClasses[i]] == i
    ensures EnergyClasses[0] == "A" && EnergyClasses[6] == "G"
  {
    CountriesDistinct();
    TransportModesDistinct();
    EnumerateAt(Countries, 0);
    EnumerateAt(TransportModes, 1);
    EnumerateAt(EnergyClasses, 2);
    forall i | 0 <= i < |EnergyClasses|
      ensures EnergyClasses[i] in EnergyClassCodes && EnergyClassCodes[EnergyClasses[i]] == i
    {
      EnumerateAt(EnergyClasses, i);
    }
  }

  /** A lookup in a code table succeeds exactly for the listed strings, yields a code below
      the table size, and distinct values never share a code; any other hashable value is
      reported as itself, and a list or dict is a type error. */
  lemma LookupInCodeTable(t: Table, n: nat, v: JVal)
    requires IsCodeTable(t, n)
    ensures Lookup(t, v).Found? <==> v.Str? && v.s in t
    ensures Lookup(t, v).Found? ==> Lookup(t, v).code < n
    ensures Lookup(t, v).KeyError? <==> Hashable(v) && !(v.Str? && v.s in t)
    ensures Lookup(t, v).KeyError? ==> Lookup(t, v).key == v
    ensures Lookup(t, v).TypeError? <==> !Hashable(v)
  {
  }

  /** Two values that a code table maps to the same code are the same value. */
  lemma LookupInjective(t: Table, n: nat, v1: JVal, v2: JVal)
    requires IsCodeTable(t, n)
    requires Lookup(t, v1).Found? && Lookup(t, v2).Found?
    requires Lookup(t, v1).code == Lookup(t, v2).code
    ensures v1 == v2
  {
  }
}
