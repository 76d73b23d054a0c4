/** numpy's argmin and argmax over a non-empty vector: the FIRST index at
    which the extreme value occurs. Callers turn an empty axis into an error
    before reaching these. */
module Selection {

  function ArgMin(s: seq<real>): (k: nat)
    requires |s| > 0
    ensures k < |s|
    ensures forall j :: 0 <= j < |s| ==> s[k] <= s[j]
    ensures forall j :: 0 <= j < k ==> s[k] < s[j]
    decreases |s|
  {
    if |s| == 1 then 0
    else
      var m := ArgMin(s[..|s| - 1]);
      if s[|s| - 1] < s[m] then |s| - 1 else m
  }

  function ArgMax(s: seq<real>): (k: nat)
    requires |s| > 0
    ensures k < |s|
    ensures forall j :: 0 <= j < |s| ==> s[j] <= s[k]
    ensures forall j :: 0 <= j < k ==> s[j] < s[k]
    decreases |s|
  {
    if |s| == 1 then 0
    else
      var m := ArgMax(s[..|s| - 1]);
      if s[m] < s[|s| - 1] then |s| - 1 else m
  }
}
