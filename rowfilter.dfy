/** `dropna(subset=..., inplace=True)`: keep exactly the rows on which every
    listed field is defined, in their original order. The field list is the
    predicate `defined`; each handler passes its own. */
module RowFilter {

  /** The rows that survive, in order. */
  function DropUndefined<T>(rows: seq<T>, defined: T -> bool): (r: seq<T>)
    ensures |r| <= |rows|
    ensures forall k :: 0 <= k < |r| ==> defined(r[k])
  {
    if |rows| == 0 then []
    else
      var kept := DropUndefined(rows[..|rows| - 1], defined);
      if defined(rows[|rows| - 1]) then kept + [rows[|rows| - 1]] else kept
  }

  /** The original positions of the rows that survive, in order. */
  function SurvivingIndices<T>(rows: seq<T>, defined: T -> bool): (r: seq<nat>)
    ensures |r| <= |rows|
    ensures forall k :: 0 <= k < |r| ==> r[k] < |rows|
  {
    if |rows| == 0 then []
    else
      var kept := SurvivingIndices(rows[..|rows| - 1], defined);
      if defined(rows[|rows| - 1]) then kept + [|rows| - 1] else kept
  }

  predicate StrictlyAscending(ix: seq<nat>) {
    forall k, l :: 0 <= k < l < |ix| ==> ix[k] < ix[l]
  }

  /** The k-th surviving row is the row at the k-th surviving position; the
      positions ascend, so the surviving rows keep their original order; and a
      position survives exactly when its row has every field defined. */
  lemma {:induction false} DropUndefinedSurvivors<T>(rows: seq<T>, defined: T -> bool)
    ensures |DropUndefined(rows, defined)| == |SurvivingIndices(rows, defined)|
    ensures forall k :: 0 <= k < |SurvivingIndices(rows, defined)| ==>
      DropUndefined(rows, defined)[k] == rows[SurvivingIndices(rows, defined)[k]]
    ensures StrictlyAscending(SurvivingIndices(rows, defined))
    ensures forall i :: 0 <= i < |rows| ==> (i in SurvivingIndices(rows, defined) <==> defined(rows[i]))
  {
    if |rows| > 0 {
      var init := rows[..|rows| - 1];
      DropUndefinedSurvivors(init, defined);
      assert forall i :: 0 <= i < |init| ==> init[i] == rows[i];
    }
  }

  /** Transforming every row in a way that does not change which fields are
      defined commutes with dropping the undefined rows. */
  lemma {:induction false} DropUndefinedMap<T>(rows: seq<T>, images: seq<T>, defined: T -> bool, f: T -> T)
    requires |images| == |rows|
    requires forall i :: 0 <= i < |rows| ==> images[i] == f(rows[i])
    requires forall x :: defined(f(x)) == defined(x)
    ensures |DropUndefined(images, defined)| == |DropUndefined(rows, defined)|
    ensures forall k :: 0 <= k < |DropUndefined(rows, defined)| ==>
      DropUndefined(images, defined)[k] == f(DropUndefined(rows, defined)[k])
  {
    if |rows| > 0 {
      DropUndefinedMap(rows[..|rows| - 1], images[..|images| - 1], defined, f);
    }
  }

  /** When no row has every field defined, nothing survives. */
  lemma {:induction false} DropUndefinedNone<T>(rows: seq<T>, defined: T -> bool)
    requires forall i :: 0 <= i < |rows| ==> !defined(rows[i])
    ensures DropUndefined(rows, defined) == []
  {
    if |rows| > 0 {
      DropUndefinedNone(rows[..|rows| - 1], defined);
    }
  }

  /** When the rows with every field defined are exactly those from position
      `p` on, the drop keeps exactly that suffix. */
  lemma {:induction false} DropUndefinedSuffix<T>(rows: seq<T>, defined: T -> bool, p: nat)
    requires p <= |rows|
    requires forall i :: 0 <= i < |rows| ==> (defined(rows[i]) <==> p <= i)
    ensures DropUndefined(rows, defined) == rows[p..]
  {
    if p == |rows| {
      DropUndefinedNone(rows, defined);
    } else {
      var init := rows[..|rows| - 1];
      assert forall i :: 0 <= i < |init| ==> init[i] == rows[i];
      DropUndefinedSuffix(init, defined, p);
      assert init[p..] + [rows[|rows| - 1]] == rows[p..];
    }
  }

  /** Every surviving row has each property that all the rows have. */
  lemma {:induction false} DropUndefinedKeeps<T>(rows: seq<T>, defined: T -> bool, p: T -> bool)
    requires forall i :: 0 <= i < |rows| ==> p(rows[i])
    ensures forall k :: 0 <= k < |DropUndefined(rows, defined)| ==> p(DropUndefined(rows, defined)[k])
  {
    if |rows| > 0 {
      DropUndefinedKeeps(rows[..|rows| - 1], defined, p);
    }
  }

  /** Rows whose keys strictly increase still do so after the drop. */
  lemma DropUndefinedKeepsOrder<T>(rows: seq<T>, defined: T -> bool, key: T -> int)
    requires forall i, j :: 0 <= i < j < |rows| ==> key(rows[i]) < key(rows[j])
    ensures var kept := DropUndefined(rows, defined);
      forall k, l :: 0 <= k < l < |kept| ==> key(kept[k]) < key(kept[l])
  {
    var kept, ix := DropUndefined(rows, defined), SurvivingIndices(rows, defined);
    DropUndefinedSurvivors(rows, defined);
    forall k, l | 0 <= k < l < |kept| ensures key(kept[k]) < key(kept[l]) {
      assert kept[k] == rows[ix[k]] && kept[l] == rows[ix[l]];
    }
  }
}
