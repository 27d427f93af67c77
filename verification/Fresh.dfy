/** Names outside a finite set. */
module Fresh {

  lemma {:induction false} LongerThanAll(names: set<string>) returns (n: nat)
    ensures forall s :: s in names ==> |s| < n
  {
    if names == {} {
      return 0;
    }
    var s :| s in names;
    n := LongerThanAll(names - {s});
    n := if |s| < n then n else |s| + 1;
  }

  lemma FreshName(names: set<string>) returns (name: string)
    ensures name !in names
  {
    var n := LongerThanAll(names);
    name := seq(n, i => 'a');
  }

}
