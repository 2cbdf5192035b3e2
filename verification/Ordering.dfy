// The ascending order in which sets of names are reported.

module Ordering {
  import opened Values

  ghost predicate Ascending(names: seq<string>) {
    forall i, j :: 0 <= i < j < |names| ==> StrLess(names[i], names[j])
  }

  /** The names, each once, in ascending order. */
  method SortNames(seen: set<string>) returns (names: seq<string>)
    ensures Ascending(names) && forall x :: x in names <==> x in seen
  {
    names := [];
    var left := seen;
    while left != {}
      invariant left <= seen && Ascending(names)
      invariant forall x :: x in names <==> x in seen && x !in left
      decreases |left|
    {
      var name :| name in left;
      names := Insert(names, name);
      left := left - {name};
    }
  }

  /** One insertion of the sort: everything smaller stays in front of the new name. */
  method Insert(names: seq<string>, name: string) returns (r: seq<string>)
    requires Ascending(names) && name !in names
    ensures Ascending(r) && forall x :: x in r <==> x in names || x == name
  {
    var i := 0;
    while i < |names| && StrLess(names[i], name)
      invariant 0 <= i <= |names| && forall k :: 0 <= k < i ==> StrLess(names[k], name)
    {
      i := i + 1;
    }
    r := names[..i] + [name] + names[i..];
    if i < |names| { StrTotal(name, names[i]); }
    forall k | i < k < |names| ensures StrLess(name, names[k]) { StrTrans(name, names[i], names[k]); }
    assert forall x :: x in names <==> x in names[..i] || x in names[i..];
  }

  lemma {:induction false} StrTotal(a: string, b: string)
    requires a != b
    ensures StrLess(a, b) || StrLess(b, a)
  {
    if a != [] && b != [] && a[0] == b[0] {
      assert a == [a[0]] + a[1..] && b == [b[0]] + b[1..];
      StrTotal(a[1..], b[1..]);
    }
  }

  lemma {:induction false} StrTrans(a: string, b: string, c: string)
    requires StrLess(a, b) && StrLess(b, c)
    ensures StrLess(a, c)
  {
    if a != [] && c != [] && a[0] == b[0] == c[0] { StrTrans(a[1..], b[1..], c[1..]); }
  }
}
