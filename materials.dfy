/**
  The material list editor of the crafting calculator (app/page.tsx):
  an ordered list of rows {id, name, price, quantity} that the page replaces
  wholesale on every add, remove and edit. Each operation is a function
  from the old list to the new one.
 */
module Materials {
  import opened Wrappers
  import opened Sanitizer

  datatype Material = Material(id: int, name: string, price: string, quantity: string)

  /** The three fields the page edits. */
  datatype Field = Name | Price | Quantity

  function BlankRow(id: int): Material
  {
    Material(id, "", "", "")
  }

  /** The list the page starts with: one blank row with id 1. */
  const InitialMaterials: seq<Material> := [BlankRow(1)]

  /**
    addMaterial: append a blank row whose id is the old length plus one;
    the earlier rows stay as they were, in order.
   */
  function AddMaterial(ms: seq<Material>): (r: seq<Material>)
    ensures |r| == |ms| + 1
    ensures r[..|ms|] == ms
    ensures r[|ms|].id == |ms| + 1
    ensures r[|ms|].name == "" && r[|ms|].price == "" && r[|ms|].quantity == ""
  {
    ms + [BlankRow(|ms| + 1)]
  }

  /**
    removeMaterial: keep the rows whose id differs from the given id. No row
    with that id is left, every row left comes from the old list, and the
    list never grows.
   */
  function RemoveMaterial(ms: seq<Material>, id: int): (r: seq<Material>)
    ensures |r| <= |ms|
    ensures forall i :: 0 <= i < |r| ==> r[i].id != id && r[i] in ms
  {
    if ms == [] then []
    else (if ms[0].id == id then [] else [ms[0]]) + RemoveMaterial(ms[1..], id)
  }

  /**
    The per-row branch of updateMaterial. A name is stored verbatim. A price
    or quantity is sanitised, and the row is left exactly as it was when the
    raw value holds more than one '.'; the other fields never change.
   */
  function UpdateRow(m: Material, field: Field, value: string): (r: Material)
    ensures r.id == m.id
    ensures field == Name ==> r == m.(name := value)
    ensures field == Price ==> r == (if DotCount(value) > 1 then m else m.(price := Sanitize(value)))
    ensures field == Quantity ==> r == (if DotCount(value) > 1 then m else m.(quantity := Sanitize(value)))
    ensures ValidNumeric(m.price) && ValidNumeric(m.quantity) ==> ValidNumeric(r.price) && ValidNumeric(r.quantity)
  {
    match field
    case Name => m.(name := value)
    case Price =>
      (match SanitizeEdit(value)
       case None => m
       case Some(v) => m.(price := v))
    case Quantity =>
      (match SanitizeEdit(value)
       case None => m
       case Some(v) => m.(quantity := v))
  }

  /**
    updateMaterial: apply UpdateRow to every row with the given id and keep
    every other row as it is; length, ids and order are preserved.
   */
  function UpdateMaterial(ms: seq<Material>, id: int, field: Field, value: string): (r: seq<Material>)
    ensures |r| == |ms|
    ensures forall i :: 0 <= i < |ms| ==> r[i].id == ms[i].id
    ensures forall i :: 0 <= i < |ms| && ms[i].id != id ==> r[i] == ms[i]
    ensures forall i :: 0 <= i < |ms| && ms[i].id == id ==> r[i] == UpdateRow(ms[i], field, value)
  {
    if ms == [] then []
    else [if ms[0].id == id then UpdateRow(ms[0], field, value) else ms[0]] + UpdateMaterial(ms[1..], id, field, value)
  }

  // ---------------------------------------------------------------------------
  // Removal keeps order

  /** Removal distributes over concatenation, so it keeps the surviving rows in their original order. */
  lemma {:induction false} RemoveMaterialAppend(a: seq<Material>, b: seq<Material>, id: int)
    ensures RemoveMaterial(a + b, id) == RemoveMaterial(a, id) + RemoveMaterial(b, id)
  {
    if a == [] {
      assert a + b == b;
    } else {
      assert (a + b)[0] == a[0];
      assert (a + b)[1..] == a[1..] + b;
      RemoveMaterialAppend(a[1..], b, id);
    }
  }

  /** Every row whose id differs survives as often as it occurs; every row with the id is gone. */
  lemma {:induction false} RemoveMaterialCounts(ms: seq<Material>, id: int, m: Material)
    ensures multiset(RemoveMaterial(ms, id))[m] == if m.id == id then 0 else multiset(ms)[m]
  {
    if ms != [] {
      assert ms == [ms[0]] + ms[1..];
      RemoveMaterialCounts(ms[1..], id, m);
    }
  }

  /** The list is unchanged exactly when no row has the id; otherwise it gets shorter. */
  lemma {:induction false} RemoveMaterialUnchanged(ms: seq<Material>, id: int)
    ensures (forall i :: 0 <= i < |ms| ==> ms[i].id != id) <==> RemoveMaterial(ms, id) == ms
    ensures (exists i :: 0 <= i < |ms| && ms[i].id == id) <==> |RemoveMaterial(ms, id)| < |ms|
  {
    if ms != [] {
      RemoveMaterialUnchanged(ms[1..], id);
      if ms[0].id == id {
        assert |RemoveMaterial(ms, id)| < |ms|;
      } else {
        assert RemoveMaterial(ms, id) == [ms[0]] + RemoveMaterial(ms[1..], id);
        assert ms == [ms[0]] + ms[1..];
        if exists i :: 0 <= i < |ms| && ms[i].id == id {
          var i :| 0 <= i < |ms| && ms[i].id == id;
          assert ms[1..][i - 1].id == id;
        }
        if exists i :: 0 <= i < |ms[1..]| && ms[1..][i].id == id {
          var i :| 0 <= i < |ms[1..]| && ms[1..][i].id == id;
          assert ms[i + 1].id == id;
        }
      }
    }
  }

  // ---------------------------------------------------------------------------
  // The stored-number invariant

  /** Every stored price and quantity contains only [0-9.] and at most one '.'. */
  predicate NumericFieldsValid(ms: seq<Material>)
  {
    forall i :: 0 <= i < |ms| ==> ValidNumeric(ms[i].price) && ValidNumeric(ms[i].quantity)
  }

  /** One user action on the list. */
  datatype Edit = Add | Remove(id: int) | Update(id: int, field: Field, value: string)

  function Apply(ms: seq<Material>, e: Edit): seq<Material>
  {
    match e
    case Add => AddMaterial(ms)
    case Remove(id) => RemoveMaterial(ms, id)
    case Update(id, field, value) => UpdateMaterial(ms, id, field, value)
  }

  /** The list after a sequence of actions, applied first to last. */
  function Run(ms: seq<Material>, es: seq<Edit>): seq<Material>
    decreases |es|
  {
    if es == [] then ms else Run(Apply(ms, es[0]), es[1..])
  }

  /** Each single action keeps the stored numbers valid. */
  lemma ApplyKeepsNumericFieldsValid(ms: seq<Material>, e: Edit)
    requires NumericFieldsValid(ms)
    ensures NumericFieldsValid(Apply(ms, e))
  {
    if e.Remove? {
      var r := RemoveMaterial(ms, e.id);
      forall i | 0 <= i < |r| ensures ValidNumeric(r[i].price) && ValidNumeric(r[i].quantity) {
        var j :| 0 <= j < |ms| && ms[j] == r[i];
      }
    }
  }

  /**
    Starting from any list whose stored numbers are valid, in particular the
    initial blank row, every sequence of adds, removes and edits keeps them valid.
   */
  lemma {:induction false} RunKeepsNumericFieldsValid(ms: seq<Material>, es: seq<Edit>)
    requires NumericFieldsValid(ms)
    ensures NumericFieldsValid(Run(ms, es))
    decreases |es|
  {
    if es != [] {
      ApplyKeepsNumericFieldsValid(ms, es[0]);
      RunKeepsNumericFieldsValid(Apply(ms, es[0]), es[1..]);
    }
  }

  lemma ReachableListsHaveValidNumbers(es: seq<Edit>)
    ensures NumericFieldsValid(Run(InitialMaterials, es))
  {
    assert ValidNumeric("") by { assert DotCount("") == 0; }
    RunKeepsNumericFieldsValid(InitialMaterials, es);
  }

  // ---------------------------------------------------------------------------
  // Ids

  /** Row k (counting from 0) has id k + 1, as when rows have only been appended. */
  predicate IdsSequential(ms: seq<Material>)
  {
    forall i :: 0 <= i < |ms| ==> ms[i].id == i + 1
  }

  predicate IdsDistinct(ms: seq<Material>)
  {
    forall i, j :: 0 <= i < j < |ms| ==> ms[i].id != ms[j].id
  }

  /** Without removals ids stay 1, 2, ..., n and therefore distinct. */
  lemma {:induction false} RunWithoutRemoveKeepsIdsSequential(ms: seq<Material>, es: seq<Edit>)
    requires IdsSequential(ms)
    requires forall k :: 0 <= k < |es| ==> !es[k].Remove?
    ensures IdsSequential(Run(ms, es)) && IdsDistinct(Run(ms, es))
    decreases |es|
  {
    if es == [] {
    } else {
      var next := Apply(ms, es[0]);
      assert IdsSequential(next);
      RunWithoutRemoveKeepsIdsSequential(next, es[1..]);
    }
  }

  /**
    Ids come from the list length, not from a counter: add a row, remove
    row 1 and add again, and both rows carry id 2. An edit or a removal
    aimed at one of them then hits both.
   */
  lemma IdReuseAfterRemove()
    ensures var ms := AddMaterial(RemoveMaterial(AddMaterial(InitialMaterials), 1));
      && |ms| == 2 && ms[0].id == 2 && ms[1].id == 2
      && !IdsDistinct(ms)
      && UpdateMaterial(ms, 2, Name, "Iron")[0].name == "Iron"
      && UpdateMaterial(ms, 2, Name, "Iron")[1].name == "Iron"
      && RemoveMaterial(ms, 2) == []
  {
    var two := AddMaterial(InitialMaterials);
    assert two == [BlankRow(1), BlankRow(2)];
    assert two[1..] == [BlankRow(2)] && two[1..][1..] == [];
    var one := RemoveMaterial(two, 1);
    assert one == [] + RemoveMaterial([BlankRow(2)], 1);
    assert RemoveMaterial([BlankRow(2)], 1) == [BlankRow(2)] + RemoveMaterial([], 1);
    assert one == [BlankRow(2)];
    var ms := AddMaterial(one);
    assert ms == [BlankRow(2), BlankRow(2)];
  }

  /** Typing "12.3.4" over a stored "12.3" leaves the row as it was. */
  lemma SecondDotIsRejected(m: Material)
    requires m.price == "12.3"
    ensures UpdateMaterial([m], m.id, Price, "12.3.4") == [m]
  {
    assert DotCount("12.3.4") == 2;
  }
}
