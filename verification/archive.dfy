/** An archive (zip or tar) abstracted to its list of members in write order, and lookup by name
    as both archive libraries do it: the most recently written member of that name wins. */
module Archive {
  import opened Errors

  /** A member: its name, the size recorded for it, and its bytes. */
  datatype Member = Member(name: string, size: nat, data: string)

  /** A member whose recorded size is the length of its bytes. */
  function MemberOf(name: string, data: string): (m: Member)
    ensures m.name == name && m.data == data && m.size == |data|
  {
    Member(name, |data|, data)
  }

  /** The position of the last member called `name`. */
  function LastIndex(members: seq<Member>, name: string): (r: Option<nat>)
    ensures r.None? <==> forall i :: 0 <= i < |members| ==> members[i].name != name
    ensures r.Some? ==> r.value < |members| && members[r.value].name == name
    ensures r.Some? ==> forall j :: r.value < j < |members| ==> members[j].name != name
    decreases |members|
  {
    if |members| == 0 then None
    else if members[|members| - 1].name == name then Some(|members| - 1)
    else LastIndex(members[..|members| - 1], name)
  }

  /** Lookup by name. */
  function Find(members: seq<Member>, name: string): (r: Option<Member>)
    ensures r.None? <==> forall i :: 0 <= i < |members| ==> members[i].name != name
    ensures r.Some? ==> r.value.name == name && r.value in members
    ensures r.Some? ==> exists i :: 0 <= i < |members| && members[i] == r.value
                          && forall j :: i < j < |members| ==> members[j].name != name
  {
    match LastIndex(members, name)
    case None => None
    case Some(i) => Some(members[i])
  }

  /** A member is found by name wherever it sits, provided nothing later has the same name. */
  lemma FindAnywhere(before: seq<Member>, m: Member, after: seq<Member>)
    requires forall i :: 0 <= i < |after| ==> after[i].name != m.name
    ensures Find(before + [m] + after, m.name) == Some(m)
  {
    var all := before + [m] + after;
    assert all[|before|] == m;
    assert forall j :: |before| < j < |all| ==> all[j] == after[j - |before| - 1];
  }
}
