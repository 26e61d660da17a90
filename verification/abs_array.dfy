/** Problem3.bePositive: every element of an array is replaced by its
    absolute value (strings are parsed first and rendered back), and the
    results are listed on one line as "value (I)" or "value (S)", separated
    by commas. Double elements are not modelled. */
module AbsArray {
  import opened Common
  import opened Decimal
  import opened Strings

  /** An array element: an Integer, a String, or null. */
  datatype Elem = IntElem(i: Int32) | StrElem(s: string) | NullElem

  /** An output slot: an Integer, a String, or null (an element of no handled type). */
  datatype Value = IntValue(v: Int32) | StrValue(text: string) | NoValue

  /** Math.abs on an `int`: negation wraps, so the most negative value is its own absolute value. */
  function Abs(x: Int32): (r: Int32)
    ensures x != MinInt ==> r >= 0 && (r == x || r == -x)
    ensures x == MinInt ==> r == MinInt
  {
    if x < 0 then Wrap(-(x as int)) else x
  }

  /** The first loop's work on one element. A string that is not an `int`
      makes parseInt throw. */
  function Convert(e: Elem): (r: Result<Value>)
    ensures r.Err? <==> e.StrElem? && ParseInt(e.s).None?
    ensures r.Err? ==> r.error == NumberFormat
    ensures e.IntElem? ==> r == Ok(IntValue(Abs(e.i)))
    ensures e.StrElem? && r.Ok? ==> r == Ok(StrValue(IntToString(Abs(ParseInt(e.s).value))))
    ensures e.NullElem? ==> r == Ok(NoValue)
  {
    match e
    case IntElem(x) => Ok(IntValue(Abs(x)))
    case StrElem(s) =>
      (match ParseInt(s)
       case None => Err(NumberFormat)
       case Some(n) => Ok(StrValue(IntToString(Abs(n)))))
    case NullElem => Ok(NoValue)
  }

  /** The first loop: the output array, same length and order as the input,
      or the exception of the first element that fails. */
  method AbsAll(arr: array<Elem>) returns (r: Result<seq<Value>>)
    ensures r.Err? <==> exists i :: 0 <= i < arr.Length && Convert(arr[i]).Err?
    ensures r.Err? ==> r.error == NumberFormat
    ensures r.Ok? ==> |r.value| == arr.Length
    ensures r.Ok? ==> forall i :: 0 <= i < arr.Length ==> Convert(arr[i]) == Ok(r.value[i])
  {
    var output: seq<Value> := [];
    var i := 0;
    while i < arr.Length
      invariant 0 <= i <= arr.Length && |output| == i
      invariant forall j :: 0 <= j < i ==> Convert(arr[j]) == Ok(output[j])
    {
      var c := Convert(arr[i]);
      if c.Err? {
        return Err(c.error);
      }
      output := output + [c.value];
      i := i + 1;
    }
    return Ok(output);
  }

  /** "%s (%s)" with the first letter of the value's class name. */
  function Entry(v: Value): (t: string)
    requires !v.NoValue?
    ensures |t| >= 4 && t[|t| - 1] == ')'
    ensures t[|t| - 4..] == if v.IntValue? then " (I)" else " (S)"
  {
    match v
    case IntValue(n) => IntToString(n) + " (I)"
    case StrValue(s) => s + " (S)"
  }

  predicate NoNulls(vs: seq<Value>) {
    forall j :: 0 <= j < |vs| ==> !vs[j].NoValue?
  }

  function Entries(vs: seq<Value>): (es: seq<string>)
    requires NoNulls(vs)
    ensures |es| == |vs| && forall j :: 0 <= j < |vs| ==> es[j] == Entry(vs[j])
  {
    seq(|vs|, j requires 0 <= j < |vs| => Entry(vs[j]))
  }

  /** The second loop: entries appended with a comma before every one but
      the first; a null slot throws at getClass(). */
  method ResultLine(outs: seq<Value>) returns (r: Result<string>)
    ensures r.Err? <==> !NoNulls(outs)
    ensures r.Err? ==> r.error == NullPointer
    ensures r.Ok? ==> NoNulls(outs) && r.value == Join(Entries(outs), ",")
  {
    var sb := "";
    var i := 0;
    while i < |outs|
      invariant 0 <= i <= |outs|
      invariant NoNulls(outs[..i])
      invariant sb == Join(Entries(outs[..i]), ",")
      invariant |sb| > 0 <==> i > 0
    {
      if outs[i].NoValue? {
        assert !NoNulls(outs) by { assert outs[i].NoValue?; }
        return Err(NullPointer);
      }
      AppendEntry(outs, i);
      var e := Entry(outs[i]);
      if |sb| > 0 {
        sb := sb + ",";
      }
      sb := sb + e;
      i := i + 1;
    }
    assert outs[..i] == outs;
    return Ok(sb);
  }

  /** One more entry extends the line by a comma (unless it is the first) and the entry. */
  lemma AppendEntry(outs: seq<Value>, i: nat)
    requires i < |outs| && NoNulls(outs[..i]) && !outs[i].NoValue?
    ensures NoNulls(outs[..i + 1])
    ensures Join(Entries(outs[..i + 1]), ",") ==
              (if i > 0 then Join(Entries(outs[..i]), ",") + "," else []) + Entry(outs[i])
  {
    var before := outs[..i];
    assert outs[..i + 1] == before + [outs[i]];
    EntriesSnoc(before, outs[i]);
    if i > 0 {
      JoinSnoc(Entries(before), Entry(outs[i]), ",");
    } else {
      assert Entries(outs[..i + 1]) == [Entry(outs[i])];
    }
  }

  /** The entries of a longer list are the old entries and one more. */
  lemma EntriesSnoc(vs: seq<Value>, v: Value)
    requires NoNulls(vs) && !v.NoValue?
    ensures NoNulls(vs + [v])
    ensures Entries(vs + [v]) == Entries(vs) + [Entry(v)]
  {
    var es := Entries(vs + [v]);
    assert forall j :: 0 <= j < |vs| ==> (vs + [v])[j] == vs[j];
    assert es[|vs|] == Entry(v);
  }

  /** bePositive: the printed result line. */
  method BePositive(arr: array<Elem>) returns (r: Result<string>)
    ensures r.Err? && r.error == NumberFormat <==> exists i :: 0 <= i < arr.Length && Convert(arr[i]).Err?
    ensures r == Err(NullPointer) <==>
              (forall i :: 0 <= i < arr.Length ==> Convert(arr[i]).Ok?)
              && exists i :: 0 <= i < arr.Length && arr[i].NullElem?
    ensures r.Ok? ==> exists outs :: (|outs| == arr.Length && NoNulls(outs)
                                      && (forall i :: 0 <= i < arr.Length ==> Convert(arr[i]) == Ok(outs[i]))
                                      && r.value == "Result: " + Join(Entries(outs), ","))
  {
    var converted := AbsAll(arr);
    if converted.Err? {
      return Err(converted.error);
    }
    var line := ResultLine(converted.value);
    assert forall i :: 0 <= i < arr.Length ==> (arr[i].NullElem? <==> converted.value[i].NoValue?);
    if line.Err? {
      return Err(line.error);
    }
    return Ok("Result: " + line.value);
  }

  /** An absolute value is never negative, except for the most negative `int`. */
  lemma AbsNonNegative(x: Int32)
    ensures Abs(x) >= 0 <==> x != MinInt
    ensures Abs(Abs(x)) == Abs(x)
  {
  }

  /** The entries can be read back from the line by splitting on commas: no
      entry holds a comma, so there is no leading, trailing or doubled comma. */
  lemma LineSplits(arr: seq<Elem>, outs: seq<Value>)
    requires |outs| == |arr| && |outs| >= 1 && NoNulls(outs)
    requires forall i :: 0 <= i < |arr| ==> Convert(arr[i]) == Ok(outs[i])
    ensures Split(Join(Entries(outs), ","), ',') == Entries(outs)
  {
    var es := Entries(outs);
    forall j | 0 <= j < |es|
      ensures ',' !in es[j]
    {
      EntryHasNoComma(arr[j], outs[j]);
    }
    SplitJoin(es, ',');
  }

  /** What precedes the class letter reads back as the element's absolute
      value, for Integer and String elements alike. */
  lemma EntryReadsBack(e: Elem, v: Value)
    requires !v.NoValue? && Convert(e) == Ok(v)
    ensures var t := Entry(v);
            ParseInt(t[..|t| - 4]) == Some(if e.IntElem? then Abs(e.i) else Abs(ParseInt(e.s).value))
  {
    var t := Entry(v);
    if v.IntValue? {
      assert t[..|t| - 4] == IntToString(v.v);
      ParseRendered(v.v);
    } else {
      var x := Abs(ParseInt(e.s).value);
      assert t[..|t| - 4] == IntToString(x);
      ParseRendered(x);
    }
  }

  lemma EntryHasNoComma(e: Elem, v: Value)
    requires !v.NoValue? && Convert(e) == Ok(v)
    ensures ',' !in Entry(v)
  {
    if v.IntValue? {
      RenderedNoComma(v.v, " (I)");
    } else {
      RenderedNoComma(Abs(ParseInt(e.s).value), " (S)");
    }
  }

  /** A rendered number followed by a comma-free suffix holds no comma. */
  lemma RenderedNoComma(x: int, suffix: string)
    requires ',' !in suffix
    ensures ',' !in IntToString(x) + suffix
  {
    var digits := IntToString(x);
    forall k | 0 <= k < |digits|
      ensures digits[k] != ','
    {
      if k > 0 {
        assert IsDigit(digits[k]);
      }
    }
  }
}
