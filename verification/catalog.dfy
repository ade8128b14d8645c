/**
 The built-in material catalog: an ordered table from material name to the
 two figures the calculator computes with, the heat of combustion (PCS, MJ/kg)
 and the critical heat flux (kW/m²). The descriptive fields of the table
 (typical density, burn time, HRR range, ignition score) are display text and
 are not part of this model.
 */
module Catalog {
  import opened Options

  datatype Material = Material(pcs: real, criticalFlux: real)

  type Entry = (string, Material)

  /** The table in its insertion order, which is the order the selector lists it in. */
  const Entries: seq<Entry> := [
    ("Câble PVC",       Material(20.0, 20.0)),
    ("Câble PE",        Material(40.0, 18.0)),
    ("Composite (FRP)", Material(20.0, 16.0)),
    ("Plastique",       Material(35.0, 15.0)),
    ("Caoutchouc",      Material(30.0, 14.0)),
    ("Bois",            Material(17.0, 12.0)),
    ("Panneau OSB",     Material(18.0, 11.0)),
    ("Feu de rame",     Material(25.0, 15.0))
  ]

  /** The selector's entry meaning "no material chosen". */
  const NoMaterial: string := "-- Aucun --"

  /** The element name the form proposes when no material is chosen. */
  const GenericElementName: string := "Câble électrique"

  /** The names of a table, in table order. */
  function Names(entries: seq<Entry>): (names: seq<string>)
    ensures |names| == |entries|
    ensures forall i :: 0 <= i < |entries| ==> names[i] == entries[i].0
  {
    if entries == [] then [] else [entries[0].0] + Names(entries[1..])
  }

  /** True when no name occurs twice, as for the keys of a dictionary. */
  predicate DistinctNames(entries: seq<Entry>)
  {
    forall i, j :: 0 <= i < j < |entries| ==> entries[i].0 != entries[j].0
  }

  /** The first entry of the table with the given name, if any. */
  function Find(entries: seq<Entry>, name: string): (r: Option<Material>)
    ensures r.Some? <==> name in Names(entries)
    ensures r.Some? ==> (name, r.value) in entries
  {
    if entries == [] then None
    else if entries[0].0 == name then Some(entries[0].1)
    else Find(entries[1..], name)
  }

  /** Every material of the table burns (positive PCS) and ignites at a critical flux between 10 (exclusive) and 20 kW/m². */
  predicate InRange(m: Material)
  {
    0.0 < m.pcs && 10.0 < m.criticalFlux <= 20.0
  }

  lemma FiguresInRange()
    ensures forall e :: e in Entries ==> InRange(e.1)
  {
    forall i | 0 <= i < |Entries|
      ensures InRange(Entries[i].1)
    {
    }
  }

  /** Lookup of a material in the built-in table. */
  function Lookup(name: string): (r: Option<Material>)
    ensures r.Some? <==> name in Names(Entries)
    ensures r.Some? ==> InRange(r.value)
  {
    var r := Find(Entries, name);
    FiguresInRange();
    r
  }

  /** The choices the selector offers: the "no material" entry, then every material in table order. */
  function Choices(): (cs: seq<string>)
    ensures |cs| == |Entries| + 1
    ensures cs[0] == NoMaterial
    ensures forall i :: 0 <= i < |Entries| ==> cs[i + 1] == Entries[i].0
  {
    [NoMaterial] + Names(Entries)
  }

  /** A value the selector can return: "no material" or a catalog name. */
  predicate IsChoice(selected: string)
  {
    selected == NoMaterial || Lookup(selected).Some?
  }

  /** The selector offers exactly the values IsChoice admits. */
  lemma ChoicesMatchIsChoice(selected: string)
    ensures IsChoice(selected) <==> selected in Choices()
  {
  }

  /** The PCS the form is pre-filled with for the selected choice. */
  function DefaultPcs(selected: string): (pcs: real)
    requires IsChoice(selected)
    ensures selected == NoMaterial ==> pcs == 0.0
    ensures selected != NoMaterial ==> Lookup(selected).Some? && pcs == Lookup(selected).value.pcs
    ensures pcs >= 0.0
  {
    if selected == NoMaterial then 0.0
    else Lookup(selected).value.pcs
  }

  /** The element name the form is pre-filled with for the selected choice. */
  function DefaultElementName(selected: string): (name: string)
    requires IsChoice(selected)
    ensures selected == NoMaterial ==> name == GenericElementName
    ensures selected != NoMaterial ==> name == selected && Lookup(name).Some?
    ensures name != []
  {
    if selected == NoMaterial then GenericElementName else selected
  }

  /** The table has no repeated name, so a name identifies its entry. */
  lemma EntriesDistinct()
    ensures DistinctNames(Entries)
  {
    // Two names of the table differ in length or in their first letter.
    forall i, j | 0 <= i < j < |Entries|
      ensures Entries[i].0 != Entries[j].0
    {
      assert |Entries[i].0| != |Entries[j].0| || Entries[i].0[0] != Entries[j].0[0];
    }
  }

  /** In a table without repeated names, lookup returns exactly the entry's own material. */
  lemma {:induction false} FindEntry(entries: seq<Entry>, i: int)
    requires DistinctNames(entries)
    requires 0 <= i < |entries|
    ensures Find(entries, entries[i].0) == Some(entries[i].1)
  {
    if i > 0 {
      assert entries[0].0 != entries[i].0;
      assert entries[1..][i - 1] == entries[i];
      FindEntry(entries[1..], i - 1);
    }
  }

  /** Every entry of the built-in table is found under its own name. */
  lemma LookupEntry(i: int)
    requires 0 <= i < |Entries|
    ensures Lookup(Entries[i].0) == Some(Entries[i].1)
  {
    EntriesDistinct();
    FindEntry(Entries, i);
  }

  /** The "no material" entry is not itself a material. */
  lemma NoMaterialIsNotAMaterial()
    ensures Lookup(NoMaterial) == None
  {
    assert NoMaterial[0] == '-';
    forall i | 0 <= i < |Entries|
      ensures Names(Entries)[i] != NoMaterial
    {
      assert Entries[i].0[0] != '-';
    }
  }

  /** Worked examples of the pre-filled PCS. */
  lemma DefaultPcsExamples()
    ensures DefaultPcs(NoMaterial) == 0.0
    ensures DefaultPcs("Bois") == 17.0
    ensures DefaultPcs("Câble PE") == 40.0
  {
    LookupEntry(5);
    LookupEntry(1);
  }
}
