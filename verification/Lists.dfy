/** Lists joined one after the other. */
module Lists {

  function Joined<T>(parts: seq<seq<T>>, n: nat): seq<T>
    requires n <= |parts|
  {
    if n == 0 then [] else Joined(parts, n - 1) + parts[n - 1]
  }

  /** Where the elements of one part are found. */
  lemma {:induction false} JoinedAt<T>(parts: seq<seq<T>>, m: nat, i: nat, n: nat)
    requires m < n <= |parts| && i < |parts[m]|
    ensures |Joined(parts, m)| + |parts[m]| <= |Joined(parts, n)|
    ensures Joined(parts, n)[|Joined(parts, m)| + i] == parts[m][i]
    decreases n
  {
    if m < n - 1 {
      JoinedAt(parts, m, i, n - 1);
    }
  }

  lemma TwiceInJoined<T>(parts: seq<seq<T>>, m: nat, n: nat, x: T) returns (i: nat, j: nat)
    requires m < n < |parts| && parts[m] == [x] && parts[n] == [x]
    ensures i < j < |Joined(parts, |parts|)|
    ensures Joined(parts, |parts|)[i] == x && Joined(parts, |parts|)[j] == x
  {
    i, j := |Joined(parts, m)|, |Joined(parts, n)|;
    JoinedAt(parts, m, 0, |parts|);
    JoinedAt(parts, n, 0, |parts|);
    JoinedAt(parts, m, 0, n);
  }

  lemma {:induction false} JoinedMembers<T>(parts: seq<seq<T>>, n: nat, x: T)
    requires n <= |parts|
    ensures x in Joined(parts, n) <==> exists i :: 0 <= i < n && x in parts[i]
  {
    if n > 0 {
      JoinedMembers(parts, n - 1, x);
    }
  }
}
