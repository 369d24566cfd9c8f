/** The string ids of tool calls and background tasks. */
module Ids {
  import opened Common

  type Id = string

  /** The ids of `s` outside `ids`, in order. */
  function Without(s: seq<Id>, ids: set<Id>): seq<Id> {
    if s == [] then [] else (if s[0] in ids then [] else [s[0]]) + Without(s[1..], ids)
  }

  lemma {:induction false} WithoutMembers(s: seq<Id>, ids: set<Id>)
    ensures Elems(Without(s, ids)) == Elems(s) - ids
    ensures forall x :: x in Without(s, ids) <==> x in s && x !in ids
    ensures Distinct(s) ==> Distinct(Without(s, ids))
  {
    if s != [] {
      var t := s[1..];
      WithoutMembers(t, ids);
      assert s == [s[0]] + t;
      assert Distinct(s) ==> Distinct(t) && s[0] !in t by {
        assert forall k :: 0 <= k < |t| ==> t[k] == s[k + 1];
      }
    }
  }
}
