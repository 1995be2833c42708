// The folder without a common interface (`problem::Folder` of src/dp/structural/Composite.cpp):
// separate lists of files and sub-folders. `Repr` holds the folder and everything below it.
module PlainFolder {
  import opened Common

  class File {
    var name: string

    constructor (name: string)
      ensures this.name == name
    {
      this.name := name;
    }
  }

  class Folder {
    var name: string
    var files: seq<File>
    var subFolders: seq<Folder>
    ghost var Repr: set<object>

    // Sub-folders lie properly inside; sharing between them is allowed.
    ghost predicate Valid()
      reads this, Repr
      decreases Repr
    {
      && this in Repr
      && forall i :: 0 <= i < |subFolders| ==>
          && subFolders[i] in Repr && subFolders[i].Repr < Repr && this !in subFolders[i].Repr
          && subFolders[i].Valid()
    }

    // The folder's own files, then those of each sub-folder in turn.
    ghost function AllFiles(): seq<File>
      requires Valid()
      reads this, Repr
      decreases Repr, |subFolders| + 1
    {
      files + FilesOfFirst(|subFolders|)
    }

    ghost function FilesOfFirst(n: nat): seq<File>
      requires Valid() && n <= |subFolders|
      reads this, Repr
      decreases Repr, n
    {
      if n == 0 then [] else FilesOfFirst(n - 1) + subFolders[n - 1].AllFiles()
    }

    constructor (name: string)
      ensures Valid() && this.name == name && files == [] && subFolders == [] && fresh(Repr)
      ensures AllFiles() == []
    {
      this.name, files, subFolders, Repr := name, [], [], {this};
    }

    method AddFile(file: File)
      requires Valid()
      modifies this`files
      ensures Valid() && files == old(files) + [file]
    {
      files := files + [file];
    }

    // The folder stays well formed exactly when it is not itself in what is added.
    method AddFolder(folder: Folder)
      requires Valid() && folder.Valid()
      modifies this`subFolders, this`Repr
      ensures subFolders == old(subFolders) + [folder]
      ensures Repr == old(Repr) + old(folder.Repr)
      ensures Valid() <==> this !in old(folder.Repr)
    {
      subFolders := subFolders + [folder];
      Repr := Repr + folder.Repr;
      assert subFolders[|subFolders| - 1] == folder;
    }

    method Size() returns (size: int)
      requires Valid()
      ensures size == |AllFiles()|
      decreases Repr
    {
      size := |files|;
      for i := 0 to |subFolders|
        invariant size == |files| + |FilesOfFirst(i)|
      {
        var below := subFolders[i].Size();
        size := size + below;
      }
    }

    method GetFilesRecursive(out: seq<File>) returns (all: seq<File>)
      requires Valid()
      ensures all == out + AllFiles()
      decreases Repr
    {
      all := out + files;
      for i := 0 to |subFolders|
        invariant all == out + (files + FilesOfFirst(i))
      {
        all := subFolders[i].GetFilesRecursive(all);
        assert FilesOfFirst(i + 1) == FilesOfFirst(i) + subFolders[i].AllFiles();
      }
    }
  }

  // ----- when the listing repeats a file -----

  // Every visit of the recursion to a folder, in order; a shared folder is visited again each time.
  ghost function Visits(f: Folder): seq<Folder>
    requires f.Valid()
    reads f, f.Repr
    decreases f.Repr, |f.subFolders| + 1
  {
    [f] + VisitsOfFirst(f, |f.subFolders|)
  }

  ghost function VisitsOfFirst(f: Folder, n: nat): seq<Folder>
    requires f.Valid() && n <= |f.subFolders|
    reads f, f.Repr
    decreases f.Repr, n
  {
    if n == 0 then [] else VisitsOfFirst(f, n - 1) + Visits(f.subFolders[n - 1])
  }

  // The folders visited are the folder, first, and the sub-folders of visited ones.
  lemma {:induction false} VisitsAreClosed(f: Folder, g: Folder)
    requires f.Valid() && g in Visits(f)
    ensures Visits(f)[0] == f
    ensures g == f || exists h :: h in Visits(f) && g in h.subFolders
    ensures forall h :: h in g.subFolders ==> h in Visits(f)
    decreases f.Repr, |f.subFolders| + 1
  {
    if g != f {
      var i := VisitedBelow(f, |f.subFolders|, g);
      var c := f.subFolders[i];
      VisitsAreClosed(c, g);
      BelowIsVisited(f, |f.subFolders|, i);
      assert f in Visits(f) && c in f.subFolders;
    } else {
      forall h | h in g.subFolders ensures h in Visits(f) {
        var i :| 0 <= i < |g.subFolders| && g.subFolders[i] == h;
        BelowIsVisited(f, |f.subFolders|, i);
        assert Visits(h)[0] == h;
      }
    }
  }

  lemma {:induction false} VisitedBelow(f: Folder, n: nat, g: Folder) returns (i: nat)
    requires f.Valid() && n <= |f.subFolders| && g in VisitsOfFirst(f, n)
    ensures i < n && g in Visits(f.subFolders[i])
    decreases n
  {
    if g in Visits(f.subFolders[n - 1]) {
      i := n - 1;
    } else {
      i := VisitedBelow(f, n - 1, g);
    }
  }

  lemma {:induction false} BelowIsVisited(f: Folder, n: nat, i: nat)
    requires f.Valid() && i < n <= |f.subFolders|
    ensures forall g :: g in Visits(f.subFolders[i]) ==> g in VisitsOfFirst(f, n)
    decreases n
  {
    if i < n - 1 {
      BelowIsVisited(f, n - 1, i);
    }
  }

  // The folders' own lists one behind the other.
  ghost function Flat(folders: seq<Folder>): seq<File>
    reads folders
  {
    if folders == [] then []
    else Flat(folders[..|folders| - 1]) + folders[|folders| - 1].files
  }

  lemma {:induction false} FlatAppend(s: seq<Folder>, t: seq<Folder>)
    ensures Flat(s + t) == Flat(s) + Flat(t)
    decreases |t|
  {
    if t == [] {
      assert s + t == s;
    } else {
      var n := |t| - 1;
      assert (s + t)[..|s| + n] == s + t[..n];
      FlatAppend(s, t[..n]);
      AppendAssociative(Flat(s), Flat(t[..n]), t[n].files);
    }
  }

  // The listing is what the visited folders hold themselves.
  lemma {:induction false} ListingIsFlat(f: Folder)
    requires f.Valid()
    ensures f.AllFiles() == Flat(Visits(f))
    decreases f.Repr, |f.subFolders| + 1
  {
    var rest := VisitsOfFirst(f, |f.subFolders|);
    FirstIsFlat(f, |f.subFolders|);
    FlatAppend([f], rest);
    assert [f][..0] == [];
    assert Flat([f]) == [] + f.files;
  }

  lemma {:induction false} FirstIsFlat(f: Folder, n: nat)
    requires f.Valid() && n <= |f.subFolders|
    ensures f.FilesOfFirst(n) == Flat(VisitsOfFirst(f, n))
    decreases f.Repr, n
  {
    if n > 0 {
      FirstIsFlat(f, n - 1);
      ListingIsFlat(f.subFolders[n - 1]);
      FlatAppend(VisitsOfFirst(f, n - 1), Visits(f.subFolders[n - 1]));
    }
  }

  // No list repeats a file, and no two of them share one.
  ghost predicate Unshared(folders: seq<Folder>)
    reads folders
  {
    && (forall i :: 0 <= i < |folders| ==> NoDup(folders[i].files))
    && (forall i, j :: 0 <= i < j < |folders| ==> Apart(folders[i].files, folders[j].files))
  }

  lemma {:induction false} FlatHas(folders: seq<Folder>, x: File)
    ensures x in Flat(folders) <==> exists i :: 0 <= i < |folders| && x in folders[i].files
  {
    if folders != [] {
      var n := |folders| - 1;
      var t := folders[..n];
      FlatHas(t, x);
      assert forall i :: 0 <= i < n ==> t[i] == folders[i];
    }
  }

  lemma FlatApart(folders: seq<Folder>, files: seq<File>)
    ensures Apart(Flat(folders), files)
       <==> forall i :: 0 <= i < |folders| ==> Apart(folders[i].files, files)
  {
    forall x ensures x in Flat(folders) <==> exists i :: 0 <= i < |folders| && x in folders[i].files {
      FlatHas(folders, x);
    }
  }

  lemma {:induction false} FlatNoDup(folders: seq<Folder>)
    ensures NoDup(Flat(folders)) <==> Unshared(folders)
  {
    if folders != [] {
      var n := |folders| - 1;
      FlatNoDup(folders[..n]);
      FlatApart(folders[..n], folders[n].files);
      AppendNoDup(Flat(folders[..n]), folders[n].files);
      UnsharedSplit(folders, n);
    }
  }

  lemma UnsharedSplit(folders: seq<Folder>, n: nat)
    requires |folders| == n + 1
    ensures Unshared(folders)
       <==> Unshared(folders[..n]) && NoDup(folders[n].files)
            && forall i :: 0 <= i < n ==> Apart(folders[..n][i].files, folders[n].files)
  {
    var t := folders[..n];
    assert forall i :: 0 <= i < n ==> t[i] == folders[i];
  }

  // The listing has every file once exactly when, over all visits of the recursion, no folder's own
  // list repeats a file and no two visits find the same one.
  lemma ListedOnce(f: Folder)
    requires f.Valid()
    ensures NoDup(f.AllFiles()) <==> Unshared(Visits(f))
  {
    ListingIsFlat(f);
    FlatNoDup(Visits(f));
  }

  lemma {:induction false} FirstGrows(f: Folder, n: nat, m: nat) returns (more: seq<File>)
    requires f.Valid() && n <= m <= |f.subFolders|
    ensures f.FilesOfFirst(m) == f.FilesOfFirst(n) + more
    decreases m
  {
    if n == m {
      more := [];
    } else {
      var t := FirstGrows(f, n, m - 1);
      more := t + f.subFolders[m - 1].AllFiles();
      AppendAssociative(f.FilesOfFirst(n), t, f.subFolders[m - 1].AllFiles());
    }
  }

  // The listing starts with the folder's own files, and an earlier sub-folder's listing comes before
  // a later one's.
  lemma ListsInOrder(f: Folder, i: nat, j: nat) returns (a: seq<File>, b: seq<File>, c: seq<File>)
    requires f.Valid() && i < j < |f.subFolders|
    ensures f.files + a + f.subFolders[i].AllFiles() + b + f.subFolders[j].AllFiles() + c == f.AllFiles()
  {
    a := f.FilesOfFirst(i);
    b := FirstGrows(f, i + 1, j);
    c := FirstGrows(f, j + 1, |f.subFolders|);
    Regroup(f.files, a, f.subFolders[i].AllFiles(), b, f.subFolders[j].AllFiles(), c);
  }

  lemma Regroup<T>(x: seq<T>, a: seq<T>, s: seq<T>, b: seq<T>, t: seq<T>, c: seq<T>)
    ensures x + a + s + b + t + c == x + (a + s + b + t + c)
  {
  }

  // Nothing stops a file from being added twice; then it is listed twice.
  method AddTwice(file: File) returns (f: Folder)
    ensures fresh(f) && f.Valid() && f.AllFiles() == [file, file] && !NoDup(f.AllFiles())
  {
    f := new Folder("twice");
    f.AddFile(file);
    f.AddFile(file);
    assert f.AllFiles()[0] == f.AllFiles()[1];
  }

  // Nor a folder from being added twice; then all its files are.
  method AddFolderTwice(shared: Folder) returns (root: Folder)
    requires shared.Valid()
    ensures fresh(root) && root.Valid() && root.AllFiles() == shared.AllFiles() + shared.AllFiles()
    ensures NoDup(root.AllFiles()) <==> shared.AllFiles() == []
  {
    root := new Folder("root");
    root.AddFolder(shared);
    root.AddFolder(shared);
    TwiceListed(root, shared);
  }

  lemma TwiceListed(root: Folder, shared: Folder)
    requires root.Valid() && root.files == [] && root.subFolders == [shared, shared]
    requires shared.Valid()
    ensures root.AllFiles() == shared.AllFiles() + shared.AllFiles()
    ensures NoDup(root.AllFiles()) <==> shared.AllFiles() == []
  {
    var all := shared.AllFiles();
    assert root.FilesOfFirst(0) == [];
    assert root.FilesOfFirst(1) == [] + all;
    assert root.FilesOfFirst(2) == root.FilesOfFirst(1) + all;
    AppendNoDup(all, all);
    if all != [] {
      assert all[0] in all;
    }
  }
}
