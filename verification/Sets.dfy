/** Choosing from a set. */
module Sets {

  lemma HasMember<T>(s: set<T>) returns (member: T)
    requires s != {}
    ensures member in s
  {
    if forall x :: x !in s { NoMember(s); }
    member :| member in s;
  }

  lemma NoMember<T>(s: set<T>)
    requires forall x :: x !in s
    ensures s == {}
  {
    assert forall x :: x in s <==> x in {};
  }
}
