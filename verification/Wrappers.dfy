/** What every module needs: a value that may be missing, and finite sets. */
module Wrappers {

  datatype Option<+T> = None | Some(value: T)

  lemma AnElement<T>(s: set<T>) returns (x: T)
    requires s != {}
    ensures x in s
  {
    x :| x in s;
  }

  lemma Smaller<T>(a: set<T>, b: set<T>)
    requires a <= b
    ensures |a| <= |b|
  {
    if a != {} {
      var x := AnElement(a);
      Smaller(a - {x}, b - {x});
    }
  }
}
