/**
 * The label encoder used for the Country column: its fitted classes are the
 * distinct names in increasing code-point order, a name's code is its index in
 * that list, and transforming a name that was not seen at fit time fails.
 */
module Encoding {
  import opened Wrappers
  import opened Text
  import Sequences

  ghost predicate StrictlySorted(s: seq<string>) {
    forall i, j :: 0 <= i < j < |s| ==> Less(s[i], s[j])
  }

  /** Add `x` to a strictly sorted list unless it is already there. */
  function InsertDistinct(x: string, s: seq<string>): (r: seq<string>)
    requires StrictlySorted(s)
    ensures StrictlySorted(r)
    ensures forall y :: y in r <==> y == x || y in s
  {
    if |s| == 0 then [x]
    else if x == s[0] then s
    else if Less(x, s[0]) then
      assert forall j :: 0 < j < |s| ==> Less(x, s[j]) by {
        forall j | 0 < j < |s| ensures Less(x, s[j]) { LessTransitive(x, s[0], s[j]); }
      }
      [x] + s
    else
      LessTotal(x, s[0]);
      var rest := InsertDistinct(x, s[1..]);
      assert s == [s[0]] + s[1..];
      assert forall y :: y in rest ==> Less(s[0], y);
      [s[0]] + rest
  }

  /** `sorted(set(xs))`; also the classes that fitting the encoder on `xs` produces. */
  function SortedDistinct(xs: seq<string>): (r: seq<string>)
    ensures StrictlySorted(r)
    ensures forall y :: y in r <==> y in xs
  {
    if |xs| == 0 then []
    else
      assert xs == [xs[0]] + xs[1..];
      InsertDistinct(xs[0], SortedDistinct(xs[1..]))
  }

  /** A strictly sorted list is determined by its elements: SortedDistinct is the only such listing. */
  lemma {:induction false} StrictlySortedUnique(s: seq<string>, t: seq<string>)
    requires StrictlySorted(s) && StrictlySorted(t)
    requires forall y :: y in s <==> y in t
    ensures s == t
  {
    assert |s| == 0 <==> |t| == 0 by {
      if |s| != 0 { assert s[0] in t; }
      if |t| != 0 { assert t[0] in s; }
    }
    if |s| != 0 {
      if s[0] != t[0] {
        assert s[0] in t && t[0] in s;
        var k :| 0 <= k < |t| && t[k] == s[0];
        var m :| 0 <= m < |s| && s[m] == t[0];
        assert Less(t[0], s[0]);
        assert Less(s[0], t[0]);
        LessAsymmetric(s[0], t[0]);
      } else {
        forall y ensures y in s[1..] <==> y in t[1..] {
          if y in s[1..] {
            var i :| 1 <= i < |s| && s[i] == y;
            assert Less(s[0], y);
            LessIrreflexive(y);
            assert y in t;
          }
          if y in t[1..] {
            var i :| 1 <= i < |t| && t[i] == y;
            assert Less(t[0], y);
            LessIrreflexive(y);
            assert y in s;
          }
        }
        StrictlySortedUnique(s[1..], t[1..]);
        assert s == [s[0]] + s[1..] && t == [t[0]] + t[1..];
      }
    }
  }

  /** The code of `name`: its position in `classes`, if it is there. */
  function IndexOf(classes: seq<string>, name: string): (r: Option<nat>)
    ensures r.Some? ==> r.value < |classes| && classes[r.value] == name
    ensures r.None? <==> name !in classes
  {
    if |classes| == 0 then None
    else if classes[0] == name then Some(0)
    else match IndexOf(classes[1..], name)
      case None => None
      case Some(i) => Some(i + 1)
  }

  /** Decoding a code and encoding the name again gives the code back. */
  lemma IndexOfClass(classes: seq<string>, i: nat)
    requires StrictlySorted(classes) && i < |classes|
    ensures IndexOf(classes, classes[i]) == Some(i)
  {
    var r := IndexOf(classes, classes[i]).value;
    if r < i {
      LessIrreflexive(classes[i]);
    } else if r > i {
      LessIrreflexive(classes[i]);
    }
  }

  datatype EncodeError = NotFitted | UnseenLabels(labels: seq<string>)

  /** `transform`: every name to its code, or the sorted distinct names that have none. */
  function Encode(classes: seq<string>, names: seq<string>): (r: Result<seq<nat>, EncodeError>)
    ensures r.Ok? <==> forall i :: 0 <= i < |names| ==> names[i] in classes
    ensures r.Ok? ==> |r.value| == |names|
    ensures r.Ok? ==> forall i :: 0 <= i < |names| ==> r.value[i] < |classes| && classes[r.value[i]] == names[i]
    ensures r.Err? ==> r.error.UnseenLabels? && r.error.labels != [] && StrictlySorted(r.error.labels)
    ensures r.Err? ==> forall y :: y in r.error.labels <==> y in names && y !in classes
  {
    if forall i :: 0 <= i < |names| ==> names[i] in classes then
      Ok(seq(|names|, i requires 0 <= i < |names| => IndexOf(classes, names[i]).value))
    else
      var unseen := (n: string) => n !in classes;
      Sequences.FilterMembers(unseen, names);
      var labels := SortedDistinct(Sequences.Filter(unseen, names));
      assert exists i :: 0 <= i < |names| && names[i] !in classes && names[i] in labels;
      Err(UnseenLabels(labels))
  }

  /** Encoding with the classes fitted on the same names never fails. */
  lemma FitThenEncode(names: seq<string>)
    ensures Encode(SortedDistinct(names), names).Ok?
  {
    var classes := SortedDistinct(names);
    assert forall i :: 0 <= i < |names| ==> names[i] in classes;
  }

  /** Codes are distinct for distinct names and the same for equal names. */
  lemma {:induction false} CodesInjective(classes: seq<string>, names: seq<string>, i: nat, j: nat)
    requires Encode(classes, names).Ok?
    requires i < |names| && j < |names|
    ensures var codes := Encode(classes, names).value; (codes[i] == codes[j] <==> names[i] == names[j])
  {
    var codes := Encode(classes, names).value;
    if names[i] == names[j] {
      assert codes[i] == IndexOf(classes, names[i]).value;
      assert codes[j] == IndexOf(classes, names[j]).value;
    }
  }

  /** The sklearn LabelEncoder object: unfitted when created, `classes_` set by fitting. */
  class LabelEncoder {
    var classes: seq<string>
    var fitted: bool

    constructor ()
      ensures !fitted && classes == []
    {
      classes := [];
      fitted := false;
    }

    method Fit(names: seq<string>)
      modifies this
      ensures fitted && classes == SortedDistinct(names)
    {
      classes := SortedDistinct(names);
      fitted := true;
    }

    method Transform(names: seq<string>) returns (r: Result<seq<nat>, EncodeError>)
      ensures !fitted ==> r == Err(NotFitted)
      ensures fitted ==> r == Encode(classes, names)
    {
      if !fitted {
        r := Err(NotFitted);
      } else {
        r := Encode(classes, names);
      }
    }

    method FitTransform(names: seq<string>) returns (codes: seq<nat>)
      modifies this
      ensures fitted && classes == SortedDistinct(names)
      ensures Encode(classes, names) == Ok(codes)
    {
      Fit(names);
      FitThenEncode(names);
      codes := Encode(classes, names).value;
    }
  }
}
