/** The shared roster of the chat relay: an ordered list of participants,
    the lookups the handlers run over it, and the removal an `exit` frame
    performs. */
module Roster {
  import opened Wrappers

  /** A display name as it reaches the server: a string, or `undefined`
      when the registration body has no `name` field. */
  type Name = Option<string>

  /** One roster entry, `{id, name}`. */
  datatype Participant = Participant(id: string, name: Name)

  /** No two entries share a name (exact, case-sensitive comparison). */
  ghost predicate UniqueNames(r: seq<Participant>) {
    forall i, j :: 0 <= i < j < |r| ==> r[i].name != r[j].name
  }

  /** No two entries share an id. */
  ghost predicate UniqueIds(r: seq<Participant>) {
    forall i, j :: 0 <= i < j < |r| ==> r[i].id != r[j].id
  }

  /** Some entry carries `name`. */
  ghost predicate HasName(r: seq<Participant>, name: Name) {
    exists i :: 0 <= i < |r| && r[i].name == name
  }

  /** `findIndex` with the predicate `user.name === name`: the position of
      the first entry with that name, or -1 when there is none. */
  function FindIndex(r: seq<Participant>, name: Name): (k: int)
    ensures -1 <= k < |r|
    ensures k == -1 <==> !HasName(r, name)
    ensures 0 <= k ==> r[k].name == name && forall i :: 0 <= i < k ==> r[i].name != name
  {
    if r == [] then -1
    else if r[0].name == name then 0
    else
      var k := FindIndex(r[1..], name);
      if k == -1 then -1 else k + 1
  }

  /** `find` with the predicate `user.name === name`: the first entry with
      that name, if any. */
  function Find(r: seq<Participant>, name: Name): (found: Option<Participant>)
    ensures found.None? <==> !HasName(r, name)
    ensures found.Some? ==> found.value in r && found.value.name == name
    ensures found.Some? ==> r[FindIndex(r, name)] == found.value
  {
    var k := FindIndex(r, name);
    if k == -1 then None else Some(r[k])
  }

  /** `splice(k, 1)`: the roster with the entry at position `k` taken out. */
  function DeleteAt(r: seq<Participant>, k: nat): (d: seq<Participant>)
    requires k < |r|
    ensures |d| == |r| - 1
    ensures forall i :: 0 <= i < k ==> d[i] == r[i]
    ensures forall i :: k <= i < |d| ==> d[i] == r[i + 1]
  {
    r[..k] + r[k + 1..]
  }

  /** What an `exit` frame does to the roster: look the name up with
      `findIndex` and splice that one entry out when it is found. */
  function Exit(r: seq<Participant>, name: Name): (r': seq<Participant>)
    ensures !HasName(r, name) ==> r' == r
    ensures HasName(r, name) ==> |r'| == |r| - 1
  {
    var k := FindIndex(r, name);
    if k == -1 then r else DeleteAt(r, k)
  }

  /** The reference definition of removing a name: walk the roster and drop
      the first entry that carries it, keeping everything else in order. */
  function RemoveFirst(r: seq<Participant>, name: Name): (r': seq<Participant>)
    ensures |r'| == if HasName(r, name) then |r| - 1 else |r|
  {
    if r == [] then []
    else if r[0].name == name then r[1..]
    else
      assert HasName(r[1..], name) <==> HasName(r, name) by {
        if HasName(r, name) {
          var i :| 0 <= i < |r| && r[i].name == name;
          assert r[1..][i - 1].name == name;
        }
        if HasName(r[1..], name) {
          var i :| 0 <= i < |r[1..]| && r[1..][i].name == name;
          assert r[i + 1].name == name;
        }
      }
      [r[0]] + RemoveFirst(r[1..], name)
  }

  /** Past a head entry with another name, an `exit` acts on the tail. */
  lemma ExitSkipsHead(r: seq<Participant>, name: Name)
    requires r != [] && r[0].name != name
    ensures Exit(r, name) == [r[0]] + Exit(r[1..], name)
  {
    var t := r[1..];
    var k := FindIndex(t, name);
    if k == -1 {
      assert r == [r[0]] + t;
    } else {
      var d, e := DeleteAt(r, k + 1), DeleteAt(t, k);
      assert forall i :: 0 <= i < |d| ==> d[i] == ([r[0]] + e)[i];
    }
  }

  /** The splice the handler performs is the reference removal. */
  lemma {:induction false} ExitIsRemoveFirst(r: seq<Participant>, name: Name)
    ensures Exit(r, name) == RemoveFirst(r, name)
  {
    if r == [] {
    } else if r[0].name == name {
      assert DeleteAt(r, 0) == r[1..];
    } else {
      ExitSkipsHead(r, name);
      ExitIsRemoveFirst(r[1..], name);
    }
  }

  /** Taking one entry out keeps the remaining entries, each as often as
      before, and takes out exactly the first match. */
  lemma {:induction false} ExitMultiset(r: seq<Participant>, name: Name)
    ensures HasName(r, name) ==> multiset(Exit(r, name)) + multiset{r[FindIndex(r, name)]} == multiset(r)
    ensures !HasName(r, name) ==> multiset(Exit(r, name)) == multiset(r)
  {
    var k := FindIndex(r, name);
    if k != -1 {
      var a, b := r[..k], r[k + 1..];
      assert Exit(r, name) == a + b;
      assert r == a + [r[k]] + b;
      calc {
        multiset(r);
        multiset(a) + multiset{r[k]} + multiset(b);
        multiset(a + b) + multiset{r[k]};
      }
    }
  }

  /** Deleting any one entry keeps the names unique. */
  lemma DeleteAtKeepsUnique(r: seq<Participant>, k: nat)
    requires k < |r|
    ensures UniqueNames(r) ==> UniqueNames(DeleteAt(r, k))
    ensures UniqueIds(r) ==> UniqueIds(DeleteAt(r, k))
  {
    var d := DeleteAt(r, k);
    if UniqueNames(r) {
      forall i, j | 0 <= i < j < |d| ensures d[i].name != d[j].name {
        var i', j' := if i < k then i else i + 1, if j < k then j else j + 1;
        assert d[i] == r[i'] && d[j] == r[j'] && i' < j';
      }
    }
    if UniqueIds(r) {
      forall i, j | 0 <= i < j < |d| ensures d[i].id != d[j].id {
        var i', j' := if i < k then i else i + 1, if j < k then j else j + 1;
        assert d[i] == r[i'] && d[j] == r[j'] && i' < j';
      }
    }
  }

  /** An `exit` keeps the names (and ids) unique: it only deletes. */
  lemma ExitKeepsUnique(r: seq<Participant>, name: Name)
    ensures UniqueNames(r) ==> UniqueNames(Exit(r, name))
    ensures UniqueIds(r) ==> UniqueIds(Exit(r, name))
  {
    var k := FindIndex(r, name);
    if k != -1 {
      DeleteAtKeepsUnique(r, k);
    }
  }

  /** With unique names, the roster after an `exit` has no entry left with
      the exited name. */
  lemma ExitRemovesName(r: seq<Participant>, name: Name)
    requires UniqueNames(r)
    ensures !HasName(Exit(r, name), name)
  {
    var k := FindIndex(r, name);
    if k != -1 {
      var d := DeleteAt(r, k);
      forall i | 0 <= i < |d| ensures d[i].name != name {
        if i >= k {
          assert d[i] == r[i + 1] && k < i + 1;
        }
      }
    }
  }

  /** With unique names, a second `exit` for the same name changes nothing. */
  lemma ExitIdempotent(r: seq<Participant>, name: Name)
    requires UniqueNames(r)
    ensures Exit(Exit(r, name), name) == Exit(r, name)
  {
    ExitRemovesName(r, name);
  }

  /** Without unique names a second `exit` is not a no-op: it removes the
      next entry with the same name. */
  lemma ExitTwiceWithDuplicates()
    ensures var p, q := Participant("1", Some("ann")), Participant("2", Some("ann"));
      Exit([p, q], Some("ann")) == [q] && Exit(Exit([p, q], Some("ann")), Some("ann")) == []
  {
    var p, q := Participant("1", Some("ann")), Participant("2", Some("ann"));
    assert DeleteAt([p, q], 0) == [q];
    assert DeleteAt([q], 0) == [];
  }

  /** Appending an entry whose name and id are not yet present keeps both
      kinds of uniqueness. */
  lemma AppendKeepsUnique(r: seq<Participant>, p: Participant)
    requires UniqueNames(r) && !HasName(r, p.name)
    requires UniqueIds(r) && forall i :: 0 <= i < |r| ==> r[i].id != p.id
    ensures UniqueNames(r + [p]) && UniqueIds(r + [p])
  {
    var s := r + [p];
    forall i, j | 0 <= i < j < |s| ensures s[i].name != s[j].name && s[i].id != s[j].id {
      if j == |r| {
        assert s[i] == r[i];
      }
    }
  }
}
