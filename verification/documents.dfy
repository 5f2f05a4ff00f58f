/** Dynamic document values as the cloud store hands them to the app, and the
    conditional casts (`as? T`) the app applies to them. Numbers follow Swift's
    bridging of stored numbers: a stored integer also reads as a `Double`, and a
    stored double reads as an `Int` exactly when it is a whole number. */
module Documents {
  import opened Wrappers

  datatype Value =
    | Str(str: string)
    | Double(double: real)
    | Integer(integer: int)
    | Array(items: seq<Value>)
    | Fields(fields: map<string, Value>)
    | Stamp(seconds: int)

  /** A stored document: its top-level fields. */
  type Document = map<string, Value>

  function Get(doc: map<string, Value>, key: string): Option<Value> {
    if key in doc then Some(doc[key]) else None
  }

  function AsString(v: Value): Option<string> {
    if v.Str? then Some(v.str) else None
  }

  function AsDouble(v: Value): Option<real> {
    match v
    case Double(d) => Some(d)
    case Integer(i) => Some(i as real)
    case _ => None
  }

  function AsInt(v: Value): Option<int> {
    match v
    case Integer(i) => Some(i)
    case Double(d) => if d.Floor as real == d then Some(d.Floor) else None
    case _ => None
  }

  function AsTimestamp(v: Value): Option<int> {
    if v.Stamp? then Some(v.seconds) else None
  }

  function AsFields(v: Value): Option<map<string, Value>> {
    if v.Fields? then Some(v.fields) else None
  }

  /** `as? [String]`: an array all of whose elements are strings. */
  function AsStringArray(v: Value): Option<seq<string>> {
    if v.Array? && forall k :: 0 <= k < |v.items| ==> v.items[k].Str? then
      Some(seq(|v.items|, k requires 0 <= k < |v.items| => v.items[k].str))
    else None
  }

  /** `as? [String: String]`: a map all of whose values are strings. */
  function AsStringFields(v: Value): Option<map<string, string>> {
    if v.Fields? && forall k :: k in v.fields ==> v.fields[k].Str? then
      Some(map k | k in v.fields :: v.fields[k].str)
    else None
  }

  /** `as? [String: Double]`: a map all of whose values read as doubles. */
  function AsDoubleFields(v: Value): Option<map<string, real>> {
    if v.Fields? && forall k :: k in v.fields ==> AsDouble(v.fields[k]).Some? then
      Some(map k | k in v.fields :: AsDouble(v.fields[k]).value)
    else None
  }

  /** `as? [[String: String]]`: an array of string-to-string maps. */
  function AsStringFieldsArray(v: Value): Option<seq<map<string, string>>> {
    if v.Array? && forall k :: 0 <= k < |v.items| ==> AsStringFields(v.items[k]).Some? then
      Some(seq(|v.items|, k requires 0 <= k < |v.items| => AsStringFields(v.items[k]).value))
    else None
  }

  /** A document the user's date-ordered query returns: its `userId` is the given
      string and it has a `date` field at all (ordering by a field leaves out
      documents without it). */
  predicate InQuery(d: Document, uid: string) {
    Get(d, "userId") == Some(Str(uid)) && "date" in d
  }

  /** Every position moved one place on. */
  function Shift(xs: seq<nat>): (ys: seq<nat>)
    ensures |ys| == |xs|
    ensures forall k :: 0 <= k < |xs| ==> ys[k] == xs[k] + 1
  {
    seq(|xs|, k requires 0 <= k < |xs| => xs[k] + 1)
  }

  /** The positions of a selection that are selected, in increasing order: each
      selected, none missed, none twice. */
  function Positions(sel: seq<bool>): (idx: seq<nat>)
    ensures forall k :: 0 <= k < |idx| ==> idx[k] < |sel| && sel[idx[k]]
    ensures forall k, l :: 0 <= k < l < |idx| ==> idx[k] < idx[l]
    ensures forall j :: 0 <= j < |sel| && sel[j] ==> j in idx
    decreases |sel|
  {
    if sel == [] then []
    else
      var rest := Positions(sel[1..]);
      if sel[0] then
        StepWithHead(sel, rest);
        [0] + Shift(rest)
      else
        StepWithoutHead(sel, rest);
        Shift(rest)
  }

  /** One step of Positions with the head selected: position zero, then the
      tail's positions moved one place on. */
  lemma StepWithHead(sel: seq<bool>, rest: seq<nat>)
    requires |sel| > 0 && sel[0]
    requires forall k :: 0 <= k < |rest| ==> rest[k] < |sel| - 1 && sel[1..][rest[k]]
    requires forall k, l :: 0 <= k < l < |rest| ==> rest[k] < rest[l]
    requires forall j :: 0 <= j < |sel| - 1 && sel[1..][j] ==> j in rest
    ensures forall k :: 0 <= k < |rest| + 1 ==> ([0] + Shift(rest))[k] < |sel| && sel[([0] + Shift(rest))[k]]
    ensures forall k, l :: 0 <= k < l < |rest| + 1 ==> ([0] + Shift(rest))[k] < ([0] + Shift(rest))[l]
    ensures forall j :: 0 <= j < |sel| && sel[j] ==> j in [0] + Shift(rest)
  {
    StepSelected(sel, rest);
    ShiftIncreasing(rest);
    StepComplete(sel, rest);
    PrependZero(sel, Shift(rest));
  }

  /** One step of Positions with the head left out: the tail's positions moved
      one place on. */
  lemma StepWithoutHead(sel: seq<bool>, rest: seq<nat>)
    requires |sel| > 0 && !sel[0]
    requires forall k :: 0 <= k < |rest| ==> rest[k] < |sel| - 1 && sel[1..][rest[k]]
    requires forall k, l :: 0 <= k < l < |rest| ==> rest[k] < rest[l]
    requires forall j :: 0 <= j < |sel| - 1 && sel[1..][j] ==> j in rest
    ensures forall k :: 0 <= k < |rest| ==> Shift(rest)[k] < |sel| && sel[Shift(rest)[k]]
    ensures forall k, l :: 0 <= k < l < |rest| ==> Shift(rest)[k] < Shift(rest)[l]
    ensures forall j :: 0 <= j < |sel| && sel[j] ==> j in Shift(rest)
  {
    StepSelected(sel, rest);
    ShiftIncreasing(rest);
    StepComplete(sel, rest);
  }

  lemma StepSelected(sel: seq<bool>, rest: seq<nat>)
    requires |sel| > 0
    requires forall k :: 0 <= k < |rest| ==> rest[k] < |sel| - 1 && sel[1..][rest[k]]
    ensures forall k :: 0 <= k < |rest| ==> 0 < Shift(rest)[k] < |sel| && sel[Shift(rest)[k]]
  {
    var ys := Shift(rest);
    forall k | 0 <= k < |rest|
      ensures 0 < ys[k] < |sel| && sel[ys[k]]
    {
      assert sel[1..][rest[k]] == sel[ys[k]];
    }
  }

  lemma StepComplete(sel: seq<bool>, rest: seq<nat>)
    requires |sel| > 0
    requires forall j :: 0 <= j < |sel| - 1 && sel[1..][j] ==> j in rest
    ensures forall j :: 1 <= j < |sel| && sel[j] ==> j in Shift(rest)
  {
    var ys := Shift(rest);
    forall j | 1 <= j < |sel| && sel[j]
      ensures j in ys
    {
      assert sel[1..][j - 1] == sel[j];
      var k :| 0 <= k < |rest| && rest[k] == j - 1;
      assert ys[k] == j;
    }
  }

  /** An increasing list of positions stays increasing when moved one place on. */
  lemma ShiftIncreasing(xs: seq<nat>)
    requires forall k, l :: 0 <= k < l < |xs| ==> xs[k] < xs[l]
    ensures forall k, l :: 0 <= k < l < |xs| ==> Shift(xs)[k] < Shift(xs)[l]
  {
    var ys := Shift(xs);
    forall k, l | 0 <= k < l < |xs|
      ensures ys[k] < ys[l]
    {
      assert xs[k] < xs[l];
    }
  }

  /** A selected head's position zero in front of the tail's shifted positions. */
  lemma PrependZero(sel: seq<bool>, ys: seq<nat>)
    requires |sel| > 0 && sel[0]
    requires forall k :: 0 <= k < |ys| ==> 0 < ys[k] < |sel| && sel[ys[k]]
    requires forall k, l :: 0 <= k < l < |ys| ==> ys[k] < ys[l]
    requires forall j :: 1 <= j < |sel| && sel[j] ==> j in ys
    ensures forall k :: 0 <= k < |ys| + 1 ==> ([0] + ys)[k] < |sel| && sel[([0] + ys)[k]]
    ensures forall k, l :: 0 <= k < l < |ys| + 1 ==> ([0] + ys)[k] < ([0] + ys)[l]
    ensures forall j :: 0 <= j < |sel| && sel[j] ==> j in [0] + ys
  {
    var idx := [0] + ys;
    forall k | 0 < k < |idx|
      ensures idx[k] == ys[k - 1]
    {
    }
    forall j | 0 <= j < |sel| && sel[j]
      ensures j in idx
    {
      if j == 0 {
        assert idx[0] == j;
      } else {
        var k :| 0 <= k < |ys| && ys[k] == j;
        assert idx[k + 1] == j;
      }
    }
  }

  /** Which documents of the collection the user's query selects. */
  function Selection(coll: seq<Document>, uid: string): (sel: seq<bool>)
    ensures |sel| == |coll|
    ensures forall j :: 0 <= j < |coll| ==> sel[j] == InQuery(coll[j], uid)
  {
    seq(|coll|, j requires 0 <= j < |coll| => InQuery(coll[j], uid))
  }

  lemma SelectionTail(coll: seq<Document>, uid: string)
    requires |coll| > 0
    ensures Selection(coll, uid)[0] == InQuery(coll[0], uid)
    ensures Selection(coll, uid)[1..] == Selection(coll[1..], uid)
  {
  }

  /** The positions of the collection that the user's query selects, in increasing
      order: each selected, none missed, none twice. */
  function MatchPositions(coll: seq<Document>, uid: string): (idx: seq<nat>)
    ensures forall k :: 0 <= k < |idx| ==> idx[k] < |coll| && InQuery(coll[idx[k]], uid)
    ensures forall k, l :: 0 <= k < l < |idx| ==> idx[k] < idx[l]
    ensures forall j :: 0 <= j < |coll| && InQuery(coll[j], uid) ==> j in idx
  {
    var sel := Selection(coll, uid);
    assert forall j :: 0 <= j < |coll| && InQuery(coll[j], uid) ==> sel[j];
    Positions(sel)
  }

  /** Picking by the tail's positions moved one place on is picking from the
      tail; a leading position zero picks the head. */
  lemma ShiftedPicks<T>(xs: seq<T>, tail: seq<nat>, rest: seq<T>)
    requires |xs| > 0 && |rest| == |tail|
    requires forall k :: 0 <= k < |tail| ==> tail[k] < |xs| - 1 && rest[k] == xs[1..][tail[k]]
    ensures forall k :: 0 <= k < |tail| ==> Shift(tail)[k] < |xs| && xs[Shift(tail)[k]] == rest[k]
    ensures forall k :: 0 <= k < |tail| + 1 ==>
      ([0] + Shift(tail))[k] < |xs| && xs[([0] + Shift(tail))[k]] == ([xs[0]] + rest)[k]
  {
    var ys := Shift(tail);
    forall k | 0 <= k < |tail|
      ensures ys[k] < |xs| && xs[ys[k]] == rest[k]
    {
      assert xs[1..][tail[k]] == xs[ys[k]];
    }
    forall k | 0 < k < |tail| + 1
      ensures ([0] + ys)[k] == ys[k - 1] && ([xs[0]] + rest)[k] == rest[k - 1]
    {
    }
  }

  /** An equality query on `userId` ordered by `date`: exactly the selected
      documents, each once, in the collection's order, which stands for the
      store's date order. */
  function QueryByUser(coll: seq<Document>, uid: string): (r: seq<Document>)
    ensures |r| == |MatchPositions(coll, uid)|
    ensures forall k :: 0 <= k < |r| ==> r[k] == coll[MatchPositions(coll, uid)[k]]
    decreases |coll|
  {
    if coll == [] then []
    else
      var rest := QueryByUser(coll[1..], uid);
      QueryStep(coll, uid, rest);
      if InQuery(coll[0], uid) then [coll[0]] + rest else rest
  }

  lemma QueryStep(coll: seq<Document>, uid: string, rest: seq<Document>)
    requires |coll| > 0
    requires |rest| == |MatchPositions(coll[1..], uid)|
    requires forall k :: 0 <= k < |rest| ==> rest[k] == coll[1..][MatchPositions(coll[1..], uid)[k]]
    ensures var idx := MatchPositions(coll, uid);
      && |idx| == (if InQuery(coll[0], uid) then 1 + |rest| else |rest|)
      && forall k :: 0 <= k < |idx| ==> coll[idx[k]] == (if InQuery(coll[0], uid) then [coll[0]] + rest else rest)[k]
  {
    SelectionTail(coll, uid);
    PickStep(coll, Selection(coll, uid), rest);
  }

  /** Picking the selected elements, one step: the head if selected, then the
      picks from the tail. */
  lemma PickStep<T>(xs: seq<T>, sel: seq<bool>, rest: seq<T>)
    requires |xs| == |sel| > 0
    requires |rest| == |Positions(sel[1..])|
    requires forall k :: 0 <= k < |rest| ==> rest[k] == xs[1..][Positions(sel[1..])[k]]
    ensures var idx := Positions(sel);
      && |idx| == (if sel[0] then 1 + |rest| else |rest|)
      && forall k :: 0 <= k < |idx| ==> xs[idx[k]] == (if sel[0] then [xs[0]] + rest else rest)[k]
  {
    var tail := Positions(sel[1..]);
    ShiftedPicks(xs, tail, rest);
    if sel[0] {
      assert Positions(sel) == [0] + Shift(tail);
    } else {
      assert Positions(sel) == Shift(tail);
    }
  }

  /** The query's answer, as membership: every answer is a selected document of
      the collection, and every selected document is answered. */
  lemma QueryMembers(coll: seq<Document>, uid: string)
    ensures forall k :: 0 <= k < |QueryByUser(coll, uid)| ==>
      QueryByUser(coll, uid)[k] in coll && InQuery(QueryByUser(coll, uid)[k], uid)
    ensures forall d :: d in coll && InQuery(d, uid) ==> d in QueryByUser(coll, uid)
  {
    var r := QueryByUser(coll, uid);
    var idx := MatchPositions(coll, uid);
    forall d | d in coll && InQuery(d, uid)
      ensures d in r
    {
      var j :| 0 <= j < |coll| && coll[j] == d;
      var k :| 0 <= k < |idx| && idx[k] == j;
      assert r[k] == d;
    }
  }

  /** A property holds of every selected document of the collection exactly when
      it holds of every document the query answers. */
  lemma QueryAll(coll: seq<Document>, uid: string, ok: Document -> bool)
    ensures (forall j :: 0 <= j < |coll| && InQuery(coll[j], uid) ==> ok(coll[j]))
      <==> (forall k :: 0 <= k < |QueryByUser(coll, uid)| ==> ok(QueryByUser(coll, uid)[k]))
  {
    var selectedOk := forall j :: 0 <= j < |coll| && InQuery(coll[j], uid) ==> ok(coll[j]);
    var answersOk := forall k :: 0 <= k < |QueryByUser(coll, uid)| ==> ok(QueryByUser(coll, uid)[k]);
    if selectedOk {
      AnswersAreSelected(coll, uid, ok);
    }
    if answersOk {
      SelectedAreAnswered(coll, uid, ok);
    }
    assert selectedOk <==> answersOk;
  }

  lemma AnswersAreSelected(coll: seq<Document>, uid: string, ok: Document -> bool)
    requires forall j :: 0 <= j < |coll| && InQuery(coll[j], uid) ==> ok(coll[j])
    ensures forall k :: 0 <= k < |QueryByUser(coll, uid)| ==> ok(QueryByUser(coll, uid)[k])
  {
    var r := QueryByUser(coll, uid);
    var idx := MatchPositions(coll, uid);
    forall k | 0 <= k < |r|
      ensures ok(r[k])
    {
      assert r[k] == coll[idx[k]] && InQuery(coll[idx[k]], uid);
    }
  }

  lemma SelectedAreAnswered(coll: seq<Document>, uid: string, ok: Document -> bool)
    requires forall k :: 0 <= k < |QueryByUser(coll, uid)| ==> ok(QueryByUser(coll, uid)[k])
    ensures forall j :: 0 <= j < |coll| && InQuery(coll[j], uid) ==> ok(coll[j])
  {
    var r := QueryByUser(coll, uid);
    var idx := MatchPositions(coll, uid);
    forall j | 0 <= j < |coll| && InQuery(coll[j], uid)
      ensures ok(coll[j])
    {
      var k :| 0 <= k < |idx| && idx[k] == j;
      assert r[k] == coll[j];
    }
  }
}
