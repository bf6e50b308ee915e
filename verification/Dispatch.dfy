/**
 Decisions of the dispatcher before a handler acts: the role index, which name
 the owner check looks up, and the batch handler's bookkeeping.
 */
module Dispatch {
  import opened Sums

  // ----- minimum roles

  datatype Policy = Policy(rpc: string, role: int)

  /** The role of the last row for a method. */
  function LastRole(rows: seq<Policy>, m: string): Option<int> {
    if rows == [] then None
    else if rows[|rows| - 1].rpc == m then Some(rows[|rows| - 1].role)
    else LastRole(rows[..|rows| - 1], m)
  }

  /** The role a scan from the top finds. */
  function FirstRole(rows: seq<Policy>, m: string): Option<int> {
    if rows == [] then None
    else if rows[0].rpc == m then Some(rows[0].role)
    else FirstRole(rows[1..], m)
  }

  function OrZero(r: Option<int>): int {
    if r.Some? then r.value else 0
  }

  /** A role is stored as a pointer, so role 0 is the null that absence also yields. */
  function Lookup(index: map<string, int>, m: string): Option<int> {
    if m in index && index[m] != 0 then Some(index[m]) else None
  }

  function MinRole(index: Option<map<string, int>>, m: Option<string>): int {
    if m.None? then 2
    else if index.None? then 2
    else OrZero(Lookup(index.value, m.value))
  }

  method BuildIndex(rows: seq<Policy>) returns (index: map<string, int>)
    ensures forall m :: MinRole(Some(index), Some(m)) == OrZero(LastRole(rows, m))
    ensures forall m :: m in index <==> LastRole(rows, m).Some?
  {
    index := map[];
    for i := 0 to |rows|
      invariant forall m :: (m in index <==> LastRole(rows[..i], m).Some?)
      invariant forall m :: m in index ==> index[m] == LastRole(rows[..i], m).value
    {
      assert rows[..i + 1][..i] == rows[..i];
      index := index[rows[i].rpc := rows[i].role];
    }
    assert rows[..|rows|] == rows;
  }

  /** What the index answers from: the role of a row for the method behind which there is no other. */
  lemma {:induction false} LastMeans(rows: seq<Policy>, m: string, role: int)
    ensures LastRole(rows, m) == Some(role) <==>
      exists i :: 0 <= i < |rows| && rows[i] == Policy(m, role) && forall h :: i < h < |rows| ==> rows[h].rpc != m
    decreases |rows|
  {
    if rows != [] {
      var n := |rows| - 1;
      if rows[n].rpc == m {
        assert rows[n] == Policy(m, rows[n].role);
      } else {
        var rest := rows[..n];
        LastMeans(rest, m, role);
        if LastRole(rows, m) == Some(role) {
          var i :| 0 <= i < n && rest[i] == Policy(m, role) && forall h :: i < h < n ==> rest[h].rpc != m;
          assert rows[i] == Policy(m, role);
          assert forall h :: i < h < n ==> rows[h] == rest[h];
        }
        if i :| 0 <= i <= n && rows[i] == Policy(m, role) && forall h :: i < h <= n ==> rows[h].rpc != m {
          assert rest[i] == Policy(m, role);
        }
      }
    }
  }

  /** Without a method or without an index the highest role is asked for; an unlisted method asks for none. */
  lemma RoleWithoutRow(index: Option<map<string, int>>, m: Option<string>)
    ensures m.None? || index.None? ==> MinRole(index, m) == 2
    ensures m.Some? && index.Some? && m.value !in index.value ==> MinRole(index, m) == 0
  {
  }

  /** Rows for one method carry one role. */
  predicate Consistent(rows: seq<Policy>) {
    forall i, j :: 0 <= i < j < |rows| && rows[i].rpc == rows[j].rpc ==> rows[i].role == rows[j].role
  }

  lemma {:induction false} FirstInRows(rows: seq<Policy>, m: string)
    ensures FirstRole(rows, m).None? ==> forall i :: 0 <= i < |rows| ==> rows[i].rpc != m
    ensures FirstRole(rows, m).Some? ==>
      exists i :: 0 <= i < |rows| && rows[i] == Policy(m, FirstRole(rows, m).value)
  {
    if rows != [] && rows[0].rpc != m {
      FirstInRows(rows[1..], m);
      if FirstRole(rows, m).Some? {
        var i :| 0 <= i < |rows[1..]| && rows[1..][i] == Policy(m, FirstRole(rows[1..], m).value);
        assert rows[i + 1] == Policy(m, FirstRole(rows, m).value);
      }
    } else if rows != [] {
      assert rows[0] == Policy(m, FirstRole(rows, m).value);
    }
  }

  lemma {:induction false} LastInRows(rows: seq<Policy>, m: string)
    ensures LastRole(rows, m).None? ==> forall i :: 0 <= i < |rows| ==> rows[i].rpc != m
    ensures LastRole(rows, m).Some? ==>
      exists i :: 0 <= i < |rows| && rows[i] == Policy(m, LastRole(rows, m).value)
  {
    if rows != [] && rows[|rows| - 1].rpc != m {
      LastInRows(rows[..|rows| - 1], m);
    } else if rows != [] {
      assert rows[|rows| - 1] == Policy(m, LastRole(rows, m).value);
    }
  }

  /** Where repeated rows agree, the index answers like a scan from the top. */
  lemma IndexIsScan(rows: seq<Policy>, m: string)
    requires Consistent(rows)
    ensures LastRole(rows, m) == FirstRole(rows, m)
  {
    FirstInRows(rows, m);
    LastInRows(rows, m);
  }

  // ----- which name is owner-checked

  datatype Json = Str(text: string) | Other

  type Params = map<string, Json>

  function Text(p: Params, key: string): Option<string> {
    if key in p && p[key].Str? then Some(p[key].text) else None
  }

  predicate Full(o: Option<string>) {
    o.Some? && o.value != ""
  }

  /** name and vm_id stand in for each other when only one is given. */
  function Aliased(p: Params): Params {
    if "vm_id" !in p && "name" in p then
      if Text(p, "name").Some? then p["vm_id" := p["name"]] else p
    else if "name" !in p && "vm_id" in p then
      if Text(p, "vm_id").Some? then p["name" := p["vm_id"]] else p
    else p
  }

  /** After aliasing a textual name is there under both keys; nothing given is changed or lost. */
  lemma AliasMeans(p: Params)
    ensures var q := Aliased(p);
      && (forall key :: key in p ==> key in q && q[key] == p[key])
      && (forall key :: key in q && key !in p ==> key == "name" || key == "vm_id")
      && (Text(p, "name").Some? && "vm_id" !in p ==> Text(q, "vm_id") == Text(p, "name"))
      && (Text(p, "vm_id").Some? && "name" !in p ==> Text(q, "name") == Text(p, "vm_id"))
      && ("name" in p && "vm_id" in p ==> q == p)
  {
  }

  function FirstFull(p: Params, keys: seq<string>): Option<string> {
    if keys == [] then None
    else if Full(Text(p, keys[0])) then Text(p, keys[0])
    else FirstFull(p, keys[1..])
  }

  lemma {:induction false} FirstFullMeans(p: Params, keys: seq<string>, x: string)
    ensures FirstFull(p, keys) == Some(x) <==>
      exists i :: 0 <= i < |keys| && Text(p, keys[i]) == Some(x) && x != ""
                  && forall h :: 0 <= h < i ==> !Full(Text(p, keys[h]))
    decreases |keys|
  {
    if keys != [] {
      var rest := keys[1..];
      FirstFullMeans(p, rest, x);
      if Full(Text(p, keys[0])) {
        assert Text(p, keys[0]) == Some(Text(p, keys[0]).value);
      } else {
        if FirstFull(p, keys) == Some(x) {
          var i :| 0 <= i < |rest| && Text(p, rest[i]) == Some(x) && x != "" && forall h :: 0 <= h < i ==> !Full(Text(p, rest[h]));
          assert Text(p, keys[i + 1]) == Some(x);
          assert forall h :: 0 < h < i + 1 ==> keys[h] == rest[h - 1];
        }
        if i :| 0 <= i < |keys| && Text(p, keys[i]) == Some(x) && x != "" && forall h :: 0 <= h < i ==> !Full(Text(p, keys[h])) {
          assert Text(p, rest[i - 1]) == Some(x);
          assert forall h :: 0 <= h < i - 1 ==> rest[h] == keys[h + 1];
        }
      }
    }
  }

  /** The VM whose owner is compared with the caller. */
  function VmOwnerTarget(rpc: string, p: Params): Option<string> {
    if rpc == "vm.clone" && Full(Text(p, "source")) then Text(p, "source")
    else FirstFull(p, ["name", "vm_id", "vm_name", "vm"])
  }

  function ContainerOwnerTarget(rpc: string, p: Params): Option<string> {
    if rpc == "container.clone" && Full(Text(p, "source")) then Text(p, "source")
    else FirstFull(p, ["name", "container", "container_id"])
  }

  /** Whose owner is looked up: the source of a clone if it is named, else the first name given. */
  lemma TargetsMean(rpc: string, p: Params)
    ensures VmOwnerTarget(rpc, p) ==
      if rpc == "vm.clone" && Full(Text(p, "source")) then Text(p, "source")
      else if Full(Text(p, "name")) then Text(p, "name")
      else if Full(Text(p, "vm_id")) then Text(p, "vm_id")
      else if Full(Text(p, "vm_name")) then Text(p, "vm_name")
      else if Full(Text(p, "vm")) then Text(p, "vm") else None
    ensures ContainerOwnerTarget(rpc, p) ==
      if rpc == "container.clone" && Full(Text(p, "source")) then Text(p, "source")
      else if Full(Text(p, "name")) then Text(p, "name")
      else if Full(Text(p, "container")) then Text(p, "container")
      else if Full(Text(p, "container_id")) then Text(p, "container_id") else None
  {
    FullOfThree(p, "vm_id", "vm_name", "vm");
    assert ["name", "vm_id", "vm_name", "vm"][1..] == ["vm_id", "vm_name", "vm"];
    FullOfThree(p, "name", "container", "container_id");
  }

  lemma FullOfThree(p: Params, a: string, b: string, c: string)
    ensures FirstFull(p, [a, b, c]) ==
      if Full(Text(p, a)) then Text(p, a) else if Full(Text(p, b)) then Text(p, b)
      else if Full(Text(p, c)) then Text(p, c) else None
  {
    assert [a, b, c][1..] == [b, c] && [b, c][1..] == [c] && [c][1..] == [];
    assert FirstFull(p, [c]) == if Full(Text(p, c)) then Text(p, c) else None;
    assert FirstFull(p, [b, c]) == if Full(Text(p, b)) then Text(p, b) else FirstFull(p, [c]);
  }

  /** The first of the keys that is a member, whatever it holds. */
  function FirstMember(p: Params, keys: seq<string>): Option<string> {
    if keys == [] then None
    else if keys[0] in p then Text(p, keys[0])
    else FirstMember(p, keys[1..])
  }

  predicate ValidName(s: string) {
    1 <= |s| <= 64 && forall i :: 0 <= i < |s| ==>
      ('a' <= s[i] <= 'z' || 'A' <= s[i] <= 'Z' || '0' <= s[i] <= '9' || s[i] == '-' || s[i] == '_')
  }

  /** The source and the new name a clone request passes to the handler's body. */
  function VmCloneNames(p: Params): Option<(string, string)> {
    var source := FirstMember(p, ["source", "name", "vm_id"]);
    var target := FirstMember(p, ["clone_name", "target", "new_name"]);
    if source.Some? && target.Some? && ValidName(source.value) && ValidName(target.value) && source.value != target.value
    then Some((source.value, target.value)) else None
  }

  function ContainerCloneNames(p: Params): Option<(string, string)> {
    var source, target := Text(p, "source"), Text(p, "dest");
    if source.Some? && target.Some? && ValidName(source.value) && ValidName(target.value) && source.value != target.value
    then Some((source.value, target.value)) else None
  }

  /** Exactly which names a clone request is carried out with. */
  lemma CloneNamesExactly(p: Params, source: string, target: string)
    ensures VmCloneNames(p) == Some((source, target)) <==>
      && (if "source" in p then Text(p, "source") else if "name" in p then Text(p, "name") else Text(p, "vm_id")) == Some(source)
      && (if "clone_name" in p then Text(p, "clone_name")
          else if "target" in p then Text(p, "target") else Text(p, "new_name")) == Some(target)
      && ValidName(source) && ValidName(target) && source != target
    ensures ContainerCloneNames(p) == Some((source, target)) <==>
      && Text(p, "source") == Some(source) && Text(p, "dest") == Some(target)
      && ValidName(source) && ValidName(target) && source != target
  {
    hide ValidName;
    FirstOfThree(p, "source", "name", "vm_id");
    FirstOfThree(p, "clone_name", "target", "new_name");
  }

  lemma FirstOfThree(p: Params, a: string, b: string, c: string)
    ensures FirstMember(p, [a, b, c]) == if a in p then Text(p, a) else if b in p then Text(p, b) else Text(p, c)
  {
    assert [a, b, c][1..] == [b, c] && [b, c][1..] == [c] && [c][1..] == [];
    assert FirstMember(p, [c]) == Text(p, c);
    assert FirstMember(p, [b, c]) == if b in p then Text(p, b) else FirstMember(p, [c]);
  }

  /** A clone acts on exactly the machine or container whose owner was checked. */
  lemma ClonesActOnCheckedName(p: Params)
    ensures var q := Aliased(p);
      && (VmCloneNames(q).Some? ==> VmOwnerTarget("vm.clone", q) == Some(VmCloneNames(q).value.0))
      && (ContainerCloneNames(q).Some? ==>
            ContainerOwnerTarget("container.clone", q) == Some(ContainerCloneNames(q).value.0))
  {
    var q := Aliased(p);
    var keys := ["source", "name", "vm_id"];
    var all := ["name", "vm_id", "vm_name", "vm"];
    assert keys[1..] == ["name", "vm_id"] && keys[1..][1..] == ["vm_id"] && keys[1..][1..][1..] == [];
    assert all[1..][0] == "vm_id";
    if VmCloneNames(q).Some? {
      assert FirstMember(q, keys) == if "source" in q then Text(q, "source") else FirstMember(q, keys[1..]);
      assert FirstMember(q, keys[1..]) == if "name" in q then Text(q, "name") else FirstMember(q, keys[1..][1..]);
      assert FirstMember(q, keys[1..][1..]) == if "vm_id" in q then Text(q, "vm_id") else None;
      if "source" !in q {
        assert !Full(Text(q, "source"));
        assert FirstFull(q, all) == if Full(Text(q, "name")) then Text(q, "name") else FirstFull(q, all[1..]);
        assert FirstFull(q, all[1..]) ==
          if Full(Text(q, "vm_id")) then Text(q, "vm_id") else FirstFull(q, all[1..][1..]);
      }
    }
  }

  /** Without the validation the two may part: an empty source is skipped by the check and not by the handler. */
  lemma EmptySourceParts()
    ensures var p: Params := map["source" := Str(""), "name" := Str("mine")];
      FirstMember(p, ["source", "name", "vm_id"]) == Some("") && VmOwnerTarget("vm.clone", p) == Some("mine")
  {
    var p: Params := map["source" := Str(""), "name" := Str("mine")];
    assert ["source", "name", "vm_id"][0] == "source";
    assert ["name", "vm_id", "vm_name", "vm"][0] == "name";
  }

  // ----- batches

  const BATCH_MAX := 100

  /** How many entries of a batch are looked at. */
  function BatchSize(vms: seq<Json>): (n: nat)
    ensures n <= |vms|
  {
    if |vms| < BATCH_MAX then |vms| else BATCH_MAX
  }

  predicate Owned(v: Json, owner: string -> Option<string>, caller: string) {
    v.Str? && v.text != "" && owner(v.text) == Some(caller)
  }

  /** An operator's batch passes only if every entry is a name the caller owns. */
  method BatchAllowed(vms: Option<seq<Json>>, owner: string -> Option<string>, caller: string) returns (allowed: bool)
    ensures allowed <==> vms.Some? && forall i :: 0 <= i < |vms.value| ==>
      vms.value[i].Str? && vms.value[i].text != "" && owner(vms.value[i].text) == Some(caller)
  {
    if vms.None? {
      return false;
    }
    var names := vms.value;
    for i := 0 to |names|
      invariant forall j :: 0 <= j < i ==> Owned(names[j], owner, caller)
    {
      if names[i].Other? {
        return false;
      }
      var vm := names[i].text;
      if vm == "" {
        return false;
      }
      if owner(vm) != Some(caller) {
        return false;
      }
    }
    return true;
  }

  datatype Reason = EmptyName | NotFound

  datatype Rejection = Rejection(vm: string, reason: Reason)

  function Name(v: Json): string {
    if v.Str? then v.text else ""
  }

  /** Accepted names and rejections, each in order, are exactly the entries split by whether they can be acted on. */
  ghost predicate Splits(vms: seq<Json>, found: string -> bool, accepted: seq<string>, rejected: seq<Rejection>)
    decreases |vms|
  {
    if vms == [] then accepted == [] && rejected == []
    else
      var last := vms[|vms| - 1];
      var rest := vms[..|vms| - 1];
      if Name(last) != "" && found(Name(last)) then
        accepted != [] && accepted[|accepted| - 1] == Name(last) && Splits(rest, found, accepted[..|accepted| - 1], rejected)
      else
        rejected != [] && rejected[|rejected| - 1].vm == Name(last)
        && rejected[|rejected| - 1].reason == (if Name(last) == "" then EmptyName else NotFound)
        && Splits(rest, found, accepted, rejected[..|rejected| - 1])
  }

  /** One entry more: it joins the accepted or the rejected, at the end. */
  lemma SplitsNext(vms: seq<Json>, i: nat, found: string -> bool, accepted: seq<string>, rejected: seq<Rejection>)
    requires i < |vms| && Splits(vms[..i], found, accepted, rejected)
    ensures var vm := Name(vms[i]);
      if vm == "" then Splits(vms[..i + 1], found, accepted, rejected + [Rejection(vm, EmptyName)])
      else if !found(vm) then Splits(vms[..i + 1], found, accepted, rejected + [Rejection(vm, NotFound)])
      else Splits(vms[..i + 1], found, accepted + [vm], rejected)
  {
    assert vms[..i + 1][..i] == vms[..i] && vms[..i + 1][i] == vms[i];
    var vm := Name(vms[i]);
    var reason := if vm == "" then EmptyName else NotFound;
    assert (rejected + [Rejection(vm, reason)])[..|rejected|] == rejected;
    assert (accepted + [vm])[..|accepted|] == accepted;
  }

  method RunBatch(vms: seq<Json>, found: string -> bool) returns (accepted: seq<string>, rejected: seq<Rejection>)
    ensures Splits(vms[..BatchSize(vms)], found, accepted, rejected)
  {
    accepted, rejected := [], [];
    var i := 0;
    assert Splits(vms[..0], found, [], []);
    hide Splits;
    while i < |vms| && i < BATCH_MAX
      invariant 0 <= i <= |vms| && i <= BATCH_MAX && Splits(vms[..i], found, accepted, rejected)
      decreases |vms| - i
    {
      SplitsNext(vms, i, found, accepted, rejected);
      var vm := Name(vms[i]);
      if vm == "" {
        rejected := rejected + [Rejection(vm, EmptyName)];
        i := i + 1;
        continue;
      }
      if !found(vm) {
        rejected := rejected + [Rejection(vm, NotFound)];
        i := i + 1;
        continue;
      }
      accepted := accepted + [vm];
      i := i + 1;
    }
  }

  /** Nothing is lost or counted twice. */
  lemma {:induction false} SplitsCount(vms: seq<Json>, found: string -> bool,
                                       accepted: seq<string>, rejected: seq<Rejection>)
    requires Splits(vms, found, accepted, rejected)
    ensures |accepted| + |rejected| == |vms|
    decreases |vms|
  {
    if vms != [] {
      var last, rest := vms[|vms| - 1], vms[..|vms| - 1];
      if Name(last) != "" && found(Name(last)) {
        SplitsCount(rest, found, accepted[..|accepted| - 1], rejected);
      } else {
        SplitsCount(rest, found, accepted, rejected[..|rejected| - 1]);
      }
    }
  }

  /** Every VM a batch acts on is an entry of it that can be acted on. */
  lemma {:induction false} AcceptedEntry(vms: seq<Json>, found: string -> bool,
                                         accepted: seq<string>, rejected: seq<Rejection>, k: nat) returns (i: nat)
    requires Splits(vms, found, accepted, rejected) && k < |accepted|
    ensures i < |vms| && vms[i] == Str(accepted[k]) && found(accepted[k])
    decreases |vms|
  {
    var last, rest := vms[|vms| - 1], vms[..|vms| - 1];
    if Name(last) == "" || !found(Name(last)) {
      i := AcceptedEntry(rest, found, accepted, rejected[..|rejected| - 1], k);
    } else if k < |accepted| - 1 {
      i := AcceptedEntry(rest, found, accepted[..|accepted| - 1], rejected, k);
    } else {
      i := |vms| - 1;
    }
  }

  /** And every entry is answered: accepted if it names a machine that is found, else rejected with the reason. */
  lemma {:induction false} EntryAnswered(vms: seq<Json>, found: string -> bool,
                                         accepted: seq<string>, rejected: seq<Rejection>, i: nat) returns (k: nat)
    requires Splits(vms, found, accepted, rejected) && i < |vms|
    ensures Name(vms[i]) == "" ==> k < |rejected| && rejected[k] == Rejection("", EmptyName)
    ensures Name(vms[i]) != "" && !found(Name(vms[i])) ==>
      k < |rejected| && rejected[k] == Rejection(Name(vms[i]), NotFound)
    ensures Name(vms[i]) != "" && found(Name(vms[i])) ==> k < |accepted| && accepted[k] == Name(vms[i])
    decreases |vms|
  {
    var last, rest := vms[|vms| - 1], vms[..|vms| - 1];
    if Name(last) != "" && found(Name(last)) {
      if i == |vms| - 1 {
        k := |accepted| - 1;
      } else {
        k := EntryAnswered(rest, found, accepted[..|accepted| - 1], rejected, i);
      }
    } else if i == |vms| - 1 {
      k := |rejected| - 1;
    } else {
      k := EntryAnswered(rest, found, accepted, rejected[..|rejected| - 1], i);
    }
  }

  /** However many are accepted, the answers account for the first hundred entries. */
  lemma BatchCounts(vms: seq<Json>, found: string -> bool, accepted: seq<string>, rejected: seq<Rejection>)
    requires Splits(vms[..BatchSize(vms)], found, accepted, rejected)
    ensures |accepted| + |rejected| == if |vms| < 100 then |vms| else 100
  {
    SplitsCount(vms[..BatchSize(vms)], found, accepted, rejected);
  }

  /** What an operator's batch acts on, the caller owns. */
  lemma BatchActsOnOwned(vms: seq<Json>, owner: string -> Option<string>, caller: string, found: string -> bool,
                         accepted: seq<string>, rejected: seq<Rejection>, k: nat)
    requires forall i :: 0 <= i < |vms| ==> Owned(vms[i], owner, caller)
    requires Splits(vms[..BatchSize(vms)], found, accepted, rejected) && k < |accepted|
    ensures owner(accepted[k]) == Some(caller) && found(accepted[k])
  {
    var i := AcceptedEntry(vms[..BatchSize(vms)], found, accepted, rejected, k);
    assert Owned(vms[i], owner, caller);
  }
}
