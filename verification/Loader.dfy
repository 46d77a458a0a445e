/** Resolving the manifest's references: each one is inline or names a file, and a set of paths already read
    guards against reading one again. */
module Loader {
  import opened Wrappers

  datatype LoadError = Circular(path: string) | Unreadable(path: string)

  /** Where files are: the absolute form of a path, and the document at an absolute path, `None` when it cannot
      be read or parsed. `manifest` is the absolute path of the manifest itself. */
  datatype Files<!T> = Files(manifest: string, absolute: string -> string, document: string -> Option<T>)

  class Ref<T> {
    const path: string
    const inline: Option<T>
    var value: Option<T>

    constructor (path: string, inline: Option<T>)
      ensures this.path == path && this.inline == inline && value == None
    {
      this.path, this.inline, value := path, inline, None;
    }

    /** What readers of the reference see. */
    function Resolved(): Option<T>
      reads this
    {
      if value.Some? then value else inline
    }

    /** `resolveRef`. */
    method Resolve(files: Files<T>, seen: set<string>) returns (err: Option<LoadError>, seen': set<string>)
      modifies this
      ensures path == "" ==> err == None && seen' == seen && Resolved() == old(Resolved()) && (inline.Some? ==> value.Some?)
      ensures path != "" ==>
                var p := files.absolute(path);
                && seen' == seen + {p}
                && err == (if p in seen then Some(Circular(p)) else if files.document(p) == None then Some(Unreadable(p)) else None)
                && value == if err == None then files.document(p) else old(value)
    {
      if path == "" {
        if inline.Some? && value == None { value := inline; }
        return None, seen;
      }
      var p := files.absolute(path);
      if p in seen { return Some(Circular(p)), seen; }
      seen' := seen + {p};
      var document := files.document(p);
      if document == None { return Some(Unreadable(p)), seen'; }
      value := document;
      return None, seen';
    }
  }

  predicate Names<T>(refs: seq<Ref<T>>, files: Files<T>, i: nat, p: string) {
    i < |refs| && refs[i].path != "" && files.absolute(refs[i].path) == p
  }

  /** The reference is inline, or it is the first thing to name its file and the file is there. */
  predicate Loads<T>(refs: seq<Ref<T>>, files: Files<T>, i: nat)
    requires i < |refs|
  {
    refs[i].path == "" ||
    (var p := files.absolute(refs[i].path);
     p != files.manifest && (forall j: nat :: j < i ==> !Names(refs, files, j, p)) && files.document(p).Some?)
  }

  /** The file was named before, by a reference or as the manifest, or else it is not there. */
  predicate FailsWith<T>(refs: seq<Ref<T>>, files: Files<T>, i: nat, e: LoadError)
    requires i < |refs|
  {
    refs[i].path != "" &&
    var p := files.absolute(refs[i].path);
    if p == files.manifest || exists j: nat :: j < i && Names(refs, files, j, p) then e == Circular(p)
    else files.document(p) == None && e == Unreadable(p)
  }

  /** Two references to one file that is there: the first loads, the second never does, although there is no cycle. */
  lemma SameFileTwice<T>(a: Ref<T>, b: Ref<T>, files: Files<T>)
    requires a.path != "" && files.absolute(a.path) == files.absolute(b.path) != files.manifest
    requires b.path != "" && files.document(files.absolute(a.path)).Some?
    ensures Loads([a, b], files, 0) && !Loads([a, b], files, 1)
  {
    assert Names([a, b], files, 0, files.absolute(b.path));
  }

  /** `resolveRefs`: nil exactly when every file is there and none is named twice, by two references or by one
      and the manifest's own path. No document that is read is itself searched for references, so a path met
      again need not be part of any cycle. */
  method ResolveRefs<T>(refs: seq<Ref<T>>, files: Files<T>) returns (err: Option<LoadError>)
    requires forall i, j :: 0 <= i < j < |refs| ==> refs[i] != refs[j]
    modifies refs
    ensures err == None <==> forall i :: 0 <= i < |refs| ==> Loads(refs, files, i)
    ensures err.Some? ==> exists i :: 0 <= i < |refs| && FailsWith(refs, files, i, err.value) && forall j :: 0 <= j < i ==> Loads(refs, files, j)
    ensures err == None ==> forall i :: 0 <= i < |refs| ==>
              refs[i].Resolved() == if refs[i].path == "" then old(refs[i].Resolved()) else files.document(files.absolute(refs[i].path))
  {
    var seen := {files.manifest};
    for i := 0 to |refs|
      invariant forall j :: 0 <= j < i ==> Loads(refs, files, j)
      invariant forall p :: p in seen <==> p == files.manifest || exists j: nat :: j < i && Names(refs, files, j, p)
      invariant forall j :: 0 <= j < i ==>
                  refs[j].Resolved() == if refs[j].path == "" then old(refs[j].Resolved()) else files.document(files.absolute(refs[j].path))
      invariant forall j :: i <= j < |refs| ==> refs[j].value == old(refs[j].value)
    {
      ghost var before := seen;
      err, seen := refs[i].Resolve(files, seen);
      if err.Some? {
        assert !Loads(refs, files, i);
        assert FailsWith(refs, files, i, err.value);
        return;
      }
      forall p ensures p in seen <==> p == files.manifest || exists j: nat :: j < i + 1 && Names(refs, files, j, p) {
        assert Names(refs, files, i, p) <==> refs[i].path != "" && p == files.absolute(refs[i].path);
        if exists j: nat :: j < i && Names(refs, files, j, p) {
          var j: nat :| j < i && Names(refs, files, j, p);
          assert p in before;
        }
      }
    }
    return None;
  }
}
