/**
  File trees as the installers see them, the recursive copy that puts a backup
  over what is left of a tree, and the partial results of a removal that broke
  off (deploy/windows/install.ps1).
 */
module FileTrees {
  import opened Wrappers

  datatype Tree = File(content: string) | Dir(entries: Entries)

  type Entries = map<string, Tree>

  function Lookup<Name>(entries: map<Name, Tree>, name: Name): (r: Option<Tree>)
    ensures r.Some? ==> name in entries && r.value == entries[name]
  {
    if name in entries then Some(entries[name]) else None
  }

  /** `entries` with `name` holding `tree`, or nothing. */
  function Put<Name(!new)>(entries: map<Name, Tree>, name: Name, tree: Option<Tree>): (r: map<Name, Tree>)
    ensures Lookup(r, name) == tree
    ensures forall other :: other != name ==> Lookup(r, other) == Lookup(entries, other)
  {
    if tree.Some? then entries[name := tree.value] else entries - {name}
  }

  /** What `dst` becomes; `None` when a file meets a directory. */
  function Copy(src: Tree, dst: Option<Tree>): Option<Tree>
    decreases src
  {
    match src
    case File(_) => if dst.Some? && dst.value.Dir? then None else Some(src)
    case Dir(entries) =>
      if dst.Some? && dst.value.File? then None
      else
        var under := Under(dst);
        if exists n :: n in entries && Copy(entries[n], Lookup(under, n)).None? then None
        else
          Some(Dir(map n | n in entries.Keys + under.Keys ::
                     if n in entries then Copy(entries[n], Lookup(under, n)).value else under[n]))
  }

  /** The entries already there; a missing directory is created empty. */
  function Under(dst: Option<Tree>): Entries
  {
    if dst.Some? && dst.value.Dir? then dst.value.entries else map[]
  }

  method CopyTreeItem(src: Tree, dst: Option<Tree>) returns (r: Option<Tree>)
    ensures r == Copy(src, dst)
    decreases src
  {
    if src.File? {
      return if dst.Some? && dst.value.Dir? then None else Some(src);
    }
    if dst.Some? && dst.value.File? {
      return None;
    }
    var under := Under(dst);
    var copied := under;
    var todo := src.entries.Keys;
    while todo != {}
      invariant todo <= src.entries.Keys
      invariant copied.Keys == under.Keys + (src.entries.Keys - todo)
      invariant forall n :: n in src.entries && n !in todo ==>
                              Copy(src.entries[n], Lookup(under, n)) == Some(copied[n])
      invariant forall n :: n in under && (n !in src.entries || n in todo) ==> copied[n] == under[n]
    {
      var name :| name in todo;
      var child := CopyTreeItem(src.entries[name], Lookup(under, name));
      if child.None? {
        return None;
      }
      copied := copied[name := child.value];
      todo := todo - {name};
    }
    assert forall n :: n in src.entries ==> Copy(src.entries[n], Lookup(under, n)).Some?;
    assert copied == Copy(src, dst).value.entries;
    r := Some(Dir(copied));
  }

  /** `left` is what a removal of `was` may leave behind: entries are gone, nothing else changed. */
  predicate PartOf(left: Option<Tree>, was: Tree)
    decreases was
  {
    left.Some? ==>
      match was
      case File(_) => left.value == was
      case Dir(entries) =>
        && left.value.Dir?
        && forall n :: n in left.value.entries ==>
             n in entries && PartOf(Some(left.value.entries[n]), entries[n])
  }

  /** `left` holds nothing that is not in `was` under the same name and of the same kind. */
  predicate Within(left: Option<Tree>, was: Tree)
    decreases was
  {
    left.Some? ==>
      match was
      case File(_) => left.value.File?
      case Dir(entries) =>
        && left.value.Dir?
        && forall n :: n in left.value.entries ==>
             n in entries && Within(Some(left.value.entries[n]), entries[n])
  }

  lemma {:induction false} PartIsWithin(left: Option<Tree>, was: Tree)
    requires PartOf(left, was)
    ensures Within(left, was)
    decreases was
  {
    if left.Some? && was.Dir? {
      forall n | n in left.value.entries ensures Within(Some(left.value.entries[n]), was.entries[n]) {
        PartIsWithin(Some(left.value.entries[n]), was.entries[n]);
      }
    }
  }

  /** A copy over remains gives back the tree exactly when the remains hold nothing foreign. */
  lemma {:induction false} CopyRestores(was: Tree, left: Option<Tree>)
    ensures Copy(was, left) == Some(was) <==> Within(left, was)
    decreases was
  {
    if was.Dir? && (left.Some? ==> left.value.Dir?) {
      var under := Under(left);
      forall n | n in was.entries
        ensures Copy(was.entries[n], Lookup(under, n)) == Some(was.entries[n])
                <==> Within(Lookup(under, n), was.entries[n])
      {
        CopyRestores(was.entries[n], Lookup(under, n));
      }
      if Within(left, was) {
        assert forall n :: n in was.entries ==> Copy(was.entries[n], Lookup(under, n)) == Some(was.entries[n]);
        assert Copy(was, left).Some? && Copy(was, left).value.entries == was.entries;
      }
      if Copy(was, left) == Some(was) {
        CopyHoldsNothingForeign(was, left);
      }
    }
  }

  lemma CopyHoldsNothingForeign(was: Tree, left: Option<Tree>)
    requires was.Dir? && (left.Some? ==> left.value.Dir?) && Copy(was, left) == Some(was)
    requires forall n :: n in was.entries ==>
                           (Copy(was.entries[n], Lookup(Under(left), n)) == Some(was.entries[n])
                            ==> Within(Lookup(Under(left), n), was.entries[n]))
    ensures Within(left, was)
  {
    var under := Under(left);
    var result := Copy(was, left).value.entries;
    assert result.Keys == was.entries.Keys + under.Keys;
    forall n | n in under ensures n in was.entries && Within(Some(under[n]), was.entries[n]) {
      assert n in result;
      assert result[n] == Copy(was.entries[n], Lookup(under, n)).value;
      assert Lookup(under, n) == Some(under[n]);
    }
  }

  lemma CopyAfterRemoval(was: Tree, left: Option<Tree>)
    requires PartOf(left, was)
    ensures Copy(was, left) == Some(was)
  {
    PartIsWithin(left, was);
    CopyRestores(was, left);
  }

  lemma {:induction false} WholeIsPart(was: Tree)
    ensures PartOf(Some(was), was)
    decreases was
  {
    if was.Dir? {
      forall n | n in was.entries ensures PartOf(Some(was.entries[n]), was.entries[n]) {
        WholeIsPart(was.entries[n]);
      }
    }
  }
}
