/** The tree of saved sessions: built from the configured names through an index
    from paths to items, and searched by path. */
module SessionTree {
  import opened SessionPaths

  class TreeItem {
    var text: string
    var full: string
    var parent: TreeItem?
    var children: seq<TreeItem>

    constructor Root()
      ensures text == "" && full == "" && parent == null && children == []
    {
      text, full, parent, children := "", "", null, [];
    }

    /** A new item goes below its parent, after the others. */
    constructor (par: TreeItem, text: string, full: string)
      modifies par`children
      ensures this.text == text && this.full == full && this.parent == par && this.children == []
      ensures par.children == old(par.children) + [this]
    {
      this.text, this.full, this.parent, this.children := text, full, par, [];
      new;
      par.children := par.children + [this];
    }
  }

  /** The shape of a tree: the paths of the children of each path. */
  type Shape = map<string, seq<string>>

  ghost predicate PathOk(kids: Shape, p: string)
    requires p in kids
  {
    && (p != "" ==> Path(p) && Dir(p) in kids && p in kids[Dir(p)])
    && (forall i :: 0 <= i < |kids[p]| ==> kids[p][i] != "" && kids[p][i] in kids && Dir(kids[p][i]) == p)
    && (forall i, j :: 0 <= i < j < |kids[p]| ==> kids[p][i] != kids[p][j])
  }

  /** Every path hangs, once, in its folder. */
  ghost predicate ShapeOk(kids: Shape) {
    && "" in kids
    && forall p {:trigger PathOk(kids, p)} :: p in kids ==> PathOk(kids, p)
  }

  ghost function Added(kids: Shape, p: string): Shape
    requires Dir(p) in kids
  {
    kids[Dir(p) := kids[Dir(p)] + [p]][p := []]
  }

  lemma AddedOk(kids: Shape, p: string)
    requires ShapeOk(kids) && p !in kids && Path(p) && Dir(p) in kids
    ensures ShapeOk(Added(kids, p))
  {
    hide Dir, Path;
    var more := Added(kids, p);
    forall q | q in more ensures PathOk(more, q) {
      if q == p {
        assert more[Dir(p)][|kids[Dir(p)]|] == p;
      } else {
        assert PathOk(kids, q);
        if q != "" && Dir(q) == Dir(p) {
          var i :| 0 <= i < |kids[Dir(q)]| && kids[Dir(q)][i] == q;
          assert more[Dir(q)][i] == q;
        }
      }
    }
  }

  /** With a path, its folders are in the tree too. */
  lemma {:induction false} PrefixesIn(kids: Shape, p: string)
    requires ShapeOk(kids) && p in kids && p != ""
    ensures Prefixes(p) <= kids.Keys
    decreases |p|
  {
    hide Prefixes;
    assert PathOk(kids, p);
    PrefixesOfDir(p);
    if HasSlash(p) {
      assert Dir(p) != "";
      PrefixesIn(kids, Dir(p));
    }
  }

  lemma KnownName(kids: Shape, name: string)
    requires ShapeOk(kids) && name in kids
    ensures kids.Keys + Prefixes(name) == kids.Keys
  {
    if name != "" { PrefixesIn(kids, name); } else { LastStep(name); }
  }

  lemma KnownFolder(kids: Shape, name: string)
    requires ShapeOk(kids) && Dir(name) in kids && Path(name)
    ensures kids.Keys + PrefixesTo(name, |Split(name)| - 1) == kids.Keys
  {
    hide PrefixesTo;
    if HasSlash(name) {
      assert Dir(name) != "";
      PrefixesIn(kids, Dir(name));
      PrefixesToDir(name, |Split(name)| - 1);
    } else {
      LastStep(name);
    }
  }

  /** Two different items have this full name. */
  ghost predicate Twice(items: seq<TreeItem>, full: string)
    reads items
  {
    exists i, j :: 0 <= i < j < |items| && items[i] != items[j] && items[i].full == full && items[j].full == full
  }

  lemma TwoOfThem(items: seq<TreeItem>, item: TreeItem, r: nat, full: string)
    requires r < |items| && items[r] != item && items[r].full == full && item.full == full
    ensures Twice(items + [item], full)
  {
    assert (items + [item])[r] == items[r] && (items + [item])[|items|] == item;
  }

  lemma MoreKeys(was: set<string>, keys: set<string>, added: set<string>, p: string)
    ensures keys == was + added ==> keys + {p} == was + (added + {p})
  {
  }

  /** What an item holds. */
  datatype Cell = Cell(text: string, full: string, parent: TreeItem?, children: seq<TreeItem>)

  ghost function CellOf(x: TreeItem): Cell
    reads x
  {
    Cell(x.text, x.full, x.parent, x.children)
  }

  ghost predicate Fields(f: map<string, TreeItem>, kids: Shape, p: string, c: Cell)
    requires p in kids
  {
    && c.full == p
    && (p == "" ==> c.parent == null)
    && (p != "" ==> c.text == Base(p) && Dir(p) in f && c.parent == f[Dir(p)])
    && |c.children| == |kids[p]|
    && forall i :: 0 <= i < |kids[p]| ==> kids[p][i] in f && c.children[i] == f[kids[p][i]]
  }

  lemma FieldsAdded(f: map<string, TreeItem>, kids: Shape, p: string, c: Cell, full: string, item: TreeItem)
    requires p in kids && Fields(f, kids, p, c) && full !in f && full !in kids && Dir(full) in kids && Dir(full) != full && p != full
    ensures
      var c' := if p == Dir(full) then c.(children := c.children + [item]) else c;
      Fields(f[full := item], Added(kids, full), p, c')
  {
    hide Dir, Base;
  }

  lemma FieldsNew(f: map<string, TreeItem>, kids: Shape, full: string, item: TreeItem)
    requires full !in f && full !in kids && full != "" && Dir(full) in kids && Dir(full) in f && Dir(full) != full
    ensures Fields(f[full := item], Added(kids, full), full, Cell(Base(full), full, f[Dir(full)], []))
  {
    hide Dir, Base;
  }

  /** A whole tree as a value. */
  type Cells = map<TreeItem, Cell>

  ghost predicate GrownTree(root: TreeItem, f: map<string, TreeItem>, cells: Cells) {
    && root in cells && cells[root].full == "" && "" in f
    && (forall p {:trigger f[p]} :: p in f ==> f[p] in cells && cells[f[p]].full == p)
    && (forall x {:trigger GrownAt(root, f, cells, x)} :: x in cells ==> GrownAt(root, f, cells, x))
    && (f[""] == root ==> forall x :: x in cells && cells[x].full == "" ==> x == root)
  }

  /** Every item is in its folder, and has the text and the folder that its full
      name asks for; of two items of one full name in one folder the index has the
      later; and while the root is in the index, no other item has its full name. */
  ghost predicate GrownAt(root: TreeItem, f: map<string, TreeItem>, cells: Cells, x: TreeItem)
    requires x in cells
  {
    var par, items := cells[x].parent, cells[x].children;
    && cells[x].full in f
    && (x != root ==> par != null && par in cells && x in cells[par].children)
    && (forall i :: 0 <= i < |items| ==> FitsIn(root, cells, items[i], cells[x].full))
    && (forall i, j :: 0 <= i < j < |items| ==> items[i] != items[j] && Overtaken(f, cells, items[i], items[j]))
  }

  ghost predicate FitsIn(root: TreeItem, cells: Cells, c: TreeItem, dir: string) {
    c in cells && c != root && cells[c].text == Base(cells[c].full) && Dir(cells[c].full) == dir
  }

  ghost predicate Overtaken(f: map<string, TreeItem>, cells: Cells, c: TreeItem, d: TreeItem) {
    c in cells && d in cells && cells[c].full == cells[d].full && cells[c].full in f ==> f[cells[c].full] != c
  }

  ghost function Grow(cells: Cells, par: TreeItem, item: TreeItem, text: string, full: string): Cells
    requires par in cells
  {
    cells[par := cells[par].(children := cells[par].children + [item])][item := Cell(text, full, par, [])]
  }

  lemma GrownMoreAt(root: TreeItem, f: map<string, TreeItem>, cells: Cells, par: TreeItem, item: TreeItem, text: string, full: string,
                    x: TreeItem)
    requires par in cells && item !in cells && x in cells && root in cells
    requires GrownAt(root, f, cells, x) && cells[par].full == Dir(full) && text == Base(full)
    ensures GrownAt(root, f[full := item], Grow(cells, par, item, text, full), x)
  {
    hide Dir, Base, FitsIn, Overtaken;
    var more := Grow(cells, par, item, text, full);
    var was, items := cells[x].children, more[x].children;
    forall i | 0 <= i < |items| ensures FitsIn(root, more, items[i], cells[x].full) && (i < |was| ==> items[i] in cells) {
      if i < |was| {
        assert items[i] == was[i] && FitsIn(root, cells, was[i], cells[x].full);
      }
      FitsMore(root, cells, par, item, text, full, items[i], cells[x].full);
    }
    forall i, j | 0 <= i < j < |items| ensures items[i] != items[j] && Overtaken(f[full := item], more, items[i], items[j]) {
      assert items[i] == was[i];
      if j < |was| { assert items[j] == was[j] && Overtaken(f, cells, was[i], was[j]); }
      OvertakenMore(f, cells, par, item, text, full, items[i], items[j]);
    }
    var up := cells[x].parent;
    if x != root { assert more[up].children == if up == par then cells[up].children + [item] else cells[up].children; }
  }

  lemma FitsMore(root: TreeItem, cells: Cells, par: TreeItem, item: TreeItem, text: string, full: string, c: TreeItem, dir: string)
    requires par in cells && item !in cells && root in cells && text == Base(full)
    ensures FitsIn(root, cells, c, dir) || (c == item && Dir(full) == dir) ==> FitsIn(root, Grow(cells, par, item, text, full), c, dir)
    ensures FitsIn(root, cells, c, dir) ==> c in cells
  {
    hide Dir, Base;
  }

  lemma OvertakenMore(f: map<string, TreeItem>, cells: Cells, par: TreeItem, item: TreeItem, text: string, full: string,
                      c: TreeItem, d: TreeItem)
    requires par in cells && item !in cells && c in cells && (d == item || Overtaken(f, cells, c, d))
    ensures Overtaken(f[full := item], Grow(cells, par, item, text, full), c, d)
  {
  }

  lemma GrownMore(root: TreeItem, f: map<string, TreeItem>, cells: Cells, par: TreeItem, item: TreeItem, text: string, full: string)
    requires par in cells && item !in cells
    ensures
      GrownTree(root, f, cells) && cells[par].full == Dir(full) && text == Base(full) ==>
        GrownTree(root, f[full := item], Grow(cells, par, item, text, full))
  {
    hide GrownAt, Dir, Base;
    if GrownTree(root, f, cells) && cells[par].full == Dir(full) && text == Base(full) {
      var more := Grow(cells, par, item, text, full);
      forall x | x in more ensures GrownAt(root, f[full := item], more, x) {
        if x == item {
          NewGrown(root, f, cells, par, item, text, full);
        } else {
          GrownMoreAt(root, f, cells, par, item, text, full, x);
        }
      }
    }
  }

  lemma NewGrown(root: TreeItem, f: map<string, TreeItem>, cells: Cells, par: TreeItem, item: TreeItem, text: string, full: string)
    requires par in cells && item !in cells
    ensures GrownAt(root, f[full := item], Grow(cells, par, item, text, full), item)
  {
    hide Dir, Base;
    var items := Grow(cells, par, item, text, full)[par].children;
    assert items[|items| - 1] == item;
  }

  /** The first of the items with this text. */
  ghost function FirstChild(items: seq<TreeItem>, text: string): (c: TreeItem?)
    reads items
    ensures c != null ==> c in items && c.text == text
  {
    if items == [] then null
    else if items[0].text == text then items[0]
    else FirstChild(items[1..], text)
  }

  lemma {:induction false} FirstChildNone(items: seq<TreeItem>, text: string)
    requires FirstChild(items, text) == null
    ensures forall r :: 0 <= r < |items| ==> items[r].text != text
  {
    if items != [] {
      FirstChildNone(items[1..], text);
      forall r | 0 <= r < |items| ensures items[r].text != text {
        if r > 0 { assert items[r] == items[1..][r - 1]; }
      }
    }
  }

  lemma FirstChildSome(items: seq<TreeItem>, text: string) returns (r: nat)
    requires FirstChild(items, text) != null
    ensures r < |items| && items[r] == FirstChild(items, text) && items[r].text == text
  {
    r :| 0 <= r < |items| && items[r] == FirstChild(items, text);
  }

  /** The index has only grown, and by new items only. */
  ghost predicate Later(f: map<string, TreeItem>, all: set<TreeItem>, f': map<string, TreeItem>, all': set<TreeItem>) {
    && all <= all'
    && (forall p :: p in f ==> p in f' && (f'[p] == f[p] || f'[p] !in all))
    && forall p :: p in f' && p !in f ==> f'[p] !in all
  }

  lemma LaterSame(f: map<string, TreeItem>, all: set<TreeItem>)
    ensures Later(f, all, f, all)
  {
  }

  lemma LaterOn(f: map<string, TreeItem>, all: set<TreeItem>, f': map<string, TreeItem>, all': set<TreeItem>,
                f'': map<string, TreeItem>, all'': set<TreeItem>)
    requires Later(f, all, f', all') && Later(f', all', f'', all'')
    ensures Later(f, all, f'', all'') && all <= all' <= all''
  {
  }

  class SessionTree {
    var root: TreeItem
    var folders: map<string, TreeItem>
    ghost var kids: Shape
    ghost var repr: set<TreeItem>

    /** All the items there are: the index has no others, nor have their children. */
    ghost predicate Framed()
      reads `root, `folders, `repr, repr`children
    {
      && root in repr && "" in folders
      && (forall p {:trigger folders[p]} :: p in folders ==> folders[p] in repr)
      && forall x, c :: x in repr && c in x.children ==> c in repr
    }

    /** The item of a path carries it, and hangs where the shape says. */
    ghost predicate Holds(p: string)
      reads this, repr
    {
      p in folders && p in kids && folders[p] in repr && folders[p].full == p && Fields(folders, kids, p, CellOf(folders[p]))
    }

    /** One item for each path of the index, each hanging once in its folder, and
        no others. */
    ghost predicate Trie()
      reads this, repr
    {
      && Framed() && ShapeOk(kids) && kids.Keys == folders.Keys && folders[""] == root
      && (forall p {:trigger Holds(p)} :: p in folders ==> Holds(p))
      && forall x :: x in repr ==> Indexed(x)
    }

    ghost predicate Indexed(x: TreeItem)
      reads this, x
    {
      x.full in folders && folders[x.full] == x
    }

    /** Some item is not the one of its path, or cannot be reached by it. */
    ghost predicate Broken()
      reads this, repr
    {
      exists x :: x in repr && !(Indexed(x) && (x.full == "" || Path(x.full)))
    }

    lemma BrokenIsNoTrie()
      requires Broken()
      ensures !Trie()
    {
      if Trie() {
        var x :| x in repr && !(Indexed(x) && (x.full == "" || Path(x.full)));
        KeyIsPath(x.full);
      }
    }

    lemma KeyIsPath(p: string)
      requires Trie() && p in folders
      ensures p == "" || Path(p)
    {
      assert PathOk(kids, p);
    }

    /** No item at the top has the empty text. */
    ghost predicate TopsNamed()
      reads `root, `repr, repr`children, repr`text
    {
      root in repr && forall c :: c in root.children ==> c in repr && c.text != ""
    }

    ghost function Contents(): (cells: Cells)
      reads `repr, repr
      ensures cells.Keys == repr
    {
      map x | x in repr :: CellOf(x)
    }

    /** What holds of the tree of any names. */
    ghost predicate Grown()
      reads `root, `folders, `repr, repr
    {
      Framed() && GrownTree(root, folders, Contents())
    }

    constructor ()
      ensures Trie() && folders.Keys == {""} && fresh(repr)
    {
      var item := new TreeItem.Root();
      root := item;
      folders := map["" := item];
      kids := map["" := []];
      repr := {item};
      new;
      assert PathOk(kids, "");
      assert Holds("");
    }

    /** Where a new item may go. */
    ghost predicate Fits(par: TreeItem, text: string, full: string)
      reads this, repr
    {
      Trie() && full !in folders && Path(full) && Dir(full) in folders && par == folders[Dir(full)] && text == Base(full)
    }

    /** It may go there, or is there already. */
    ghost predicate Room(par: TreeItem, text: string, path: string)
      reads this, repr
    {
      (path in folders && Trie()) || Fits(par, text, path)
    }

    /** A new item enters the tree and the index. */
    method Insert(par: TreeItem, text: string, full: string)
      requires Framed() && par in repr
      modifies `folders, `kids, `repr, repr`children
      ensures Framed() && Later(old(folders), old(repr), folders, repr) && fresh(repr - old(repr))
      ensures full in folders && folders == old(folders)[full := folders[full]] && folders[full] !in old(repr)
      ensures folders[full].full == full && folders[full].text == text && par.children == old(par.children) + [folders[full]]
      ensures old(TopsNamed()) && (text != "" || par != root) ==> TopsNamed()
      ensures folders[full].children == [] && forall x :: x in old(repr) && x != par ==> x.children == old(x.children)
      ensures old(Fits(par, text, full)) ==> Trie()
      ensures old(Grown()) && par.full == Dir(full) && text == Base(full) ==> Grown()
    {
      hide ShapeOk, Dir, Base, Later, TopsNamed, Fields, Trie, Fits, Framed, Grown;
      ghost var fits := Fits(par, text, full);
      if fits { FitsMeans(par, text, full); }
      var item := Attach(par, text, full);
      if fits {
        AddedOk(old(kids), full);
        kids := Added(kids, full);
        forall p | p in folders ensures Holds(p) {
          if p == full {
            FieldsNew(old(folders), old(kids), full, item);
          } else {
            assert old(Holds(p)) && old(Holds(Dir(full)));
            ghost var c := old(CellOf(folders[p]));
            FieldsAdded(old(folders), old(kids), p, c, full, item);
            assert CellOf(folders[p]) == if p == Dir(full) then c.(children := c.children + [item]) else c;
          }
        }
        forall x | x in repr ensures Indexed(x) {
          if x != item { assert old(Indexed(x)); }
        }
        TrieFrom();
      }
    }

    lemma FitsMeans(par: TreeItem, text: string, full: string)
      requires Fits(par, text, full)
      ensures ShapeOk(kids) && kids.Keys == folders.Keys && folders[""] == root && full != "" && Path(full)
      ensures full !in folders && Dir(full) in folders && par == folders[Dir(full)] && text == Base(full) && Dir(full) != full
      ensures (forall p {:trigger Holds(p)} :: p in folders ==> Holds(p)) && forall x :: x in repr ==> Indexed(x)
    {
    }

    lemma TrieFrom()
      requires Framed() && ShapeOk(kids) && kids.Keys == folders.Keys && folders[""] == root
      requires (forall p {:trigger Holds(p)} :: p in folders ==> Holds(p)) && forall x :: x in repr ==> Indexed(x)
      ensures Trie()
    {
    }

    method Attach(par: TreeItem, text: string, full: string) returns (item: TreeItem)
      requires Framed() && par in repr
      modifies `folders, `repr, par`children
      ensures Framed() && Later(old(folders), old(repr), folders, repr)
      ensures fresh(item) && repr == old(repr) + {item} && folders == old(folders)[full := item]
      ensures item.full == full && item.text == text && item.parent == par && item.children == []
      ensures par.children == old(par.children) + [item]
      ensures old(TopsNamed()) && (text != "" || par != root) ==> TopsNamed()
      ensures old(Grown()) && par.full == Dir(full) && text == Base(full) ==> Grown()
    {
      hide Dir, Base, GrownTree, Grow, TopsNamed, Later;
      ghost var cells := Contents();
      item := Place(par, text, full);
      GrownMore(root, old(folders), cells, par, item, text, full);
      ContentsMore(cells, par, item, text, full);
    }

    method Place(par: TreeItem, text: string, full: string) returns (item: TreeItem)
      requires Framed() && par in repr
      modifies `folders, `repr, par`children
      ensures Framed() && Later(old(folders), old(repr), folders, repr)
      ensures fresh(item) && repr == old(repr) + {item} && folders == old(folders)[full := item]
      ensures item.full == full && item.text == text && item.parent == par && item.children == []
      ensures par.children == old(par.children) + [item]
      ensures old(TopsNamed()) && (text != "" || par != root) ==> TopsNamed()
    {
      item := new TreeItem(par, text, full);
      folders := folders[full := item];
      repr := repr + {item};
    }

    lemma ContentsMore(was: Cells, par: TreeItem, item: TreeItem, text: string, full: string)
      requires par in was && item !in was && repr == was.Keys + {item} && CellOf(item) == Cell(text, full, par, [])
      requires forall x :: x in was ==> CellOf(x) == if x == par then was[x].(children := was[x].children + [item]) else was[x]
      ensures Contents() == Grow(was, par, item, text, full)
    {
    }

    /** The folder of a path, made if it is missing. */
    method Folder(par: TreeItem, text: string, path: string) returns (item: TreeItem)
      requires Framed() && par in repr
      modifies `folders, `kids, `repr, repr`children
      ensures Framed() && Later(old(folders), old(repr), folders, repr) && fresh(repr - old(repr))
      ensures path in folders && item == folders[path] && item in repr && folders.Keys == old(folders.Keys) + {path}
      ensures old(Room(par, text, path)) ==> Trie()
      ensures old(TopsNamed()) && (text != "" || old(path in folders)) ==> TopsNamed()
      ensures old(Grown()) && par.full == Dir(path) && text == Base(path) ==> Grown() && item.full == path
    {
      hide Holds, ShapeOk, Dir, Base, Path, GrownAt;
      LaterSame(folders, repr);
      if path !in folders {
        Insert(par, text, path);
      }
      item := folders[path];
    }

    /** The folders on the way to a name, as far as they are missing. */
    method MakeFolders(s: string)
      requires Framed()
      modifies `folders, `kids, `repr, repr`children
      ensures Framed() && Later(old(folders), old(repr), folders, repr) && fresh(repr - old(repr))
      ensures Dir(s) in folders
      ensures old(Trie()) && Path(s) ==> Trie() && folders.Keys == old(folders.Keys) + PrefixesTo(s, |Split(s)| - 1)
      ensures old(TopsNamed()) && Filled(s) ==> TopsNamed()
      ensures old(Grown()) ==> Grown()
    {
      hide Trie, Framed, Grown, Fits, Room, Later, TopsNamed, Path, Filled, Dir, Base, HasSlash, LastSlash, Prefix, PrefixesTo, Prefixes, Split;
      ghost var good := Trie() && Path(s);
      ghost var plain := TopsNamed() && Filled(s);
      LastStep(s);
      RootIndexed();
      if good { Top(); }
      if Grown() { GrownRoot(); }
      var split := Split(s);
      var par, tmpdir, i := root, "", 0;
      LaterSame(folders, repr);
      while i < |split| - 1
        invariant 0 <= i < |split| && Framed() && Later(old(folders), old(repr), folders, repr) && fresh(repr - old(repr))
        invariant tmpdir == if i == 0 then "" else Prefix(s, i) + [SPLIT]
        invariant par in repr && Prefix(s, i) in folders
        invariant good ==> Trie() && par == folders[Prefix(s, i)] && folders.Keys == old(folders.Keys) + PrefixesTo(s, i)
        invariant plain ==> TopsNamed()
        invariant old(Grown()) ==> Grown() && par.full == Prefix(s, i)
      {
        StepText(s, i);
        PrefixesGrow(s, i);
        if good { StepFits(s, i, par); }
        if !Path(s) && i == 0 { EmptyKey(s); }
        tmpdir := tmpdir + split[i];
        assert tmpdir == Prefix(s, i + 1);
        par := NextFolder(par, split[i], tmpdir, old(folders), old(repr), PrefixesTo(s, i));
        tmpdir := tmpdir + [SPLIT];
        i := i + 1;
      }
    }

    lemma StepFits(s: string, i: nat, par: TreeItem)
      requires Trie() && Path(s) && i < |Split(s)| && Prefix(s, i) in folders && par == folders[Prefix(s, i)]
      ensures Room(par, Split(s)[i], Prefix(s, i + 1))
    {
      hide Trie, Room, Path, Prefix, Split, Dir, Base;
      PrefixStep(s, i);
      PrefixPath(s, i + 1);
      NextFits(par, Split(s)[i], Prefix(s, i + 1));
    }

    /** One step of that loop. */
    method NextFolder(par: TreeItem, text: string, path: string,
                      ghost f: map<string, TreeItem>, ghost all: set<TreeItem>, ghost added: set<string>) returns (item: TreeItem)
      requires Framed() && par in repr && Later(f, all, folders, repr)
      modifies `folders, `kids, `repr, repr`children
      ensures Framed() && Later(f, all, folders, repr) && fresh(repr - old(repr))
      ensures path in folders && item == folders[path] && item in repr
      ensures old(folders.Keys) == f.Keys + added ==> folders.Keys == f.Keys + (added + {path})
      ensures old(Room(par, text, path)) ==> Trie()
      ensures old(TopsNamed()) && (text != "" || old(path in folders)) ==> TopsNamed()
      ensures old(Grown()) && par.full == Dir(path) && text == Base(path) ==> Grown() && item.full == path
    {
      hide Room, Trie, TopsNamed, Later, Framed, Grown, Dir, Base;
      ghost var f0, r0 := folders, repr;
      item := Folder(par, text, path);
      LaterOn(f, all, f0, r0, folders, repr);
      MoreKeys(f.Keys, f0.Keys, added, path);
    }

    /** The first folder of a name that begins with a slash is there already. */
    lemma EmptyKey(s: string)
      requires Framed() && !Path(s)
      ensures Split(s)[0] == "" && "" in folders
    {
      FirstComponent(s);
    }

    lemma GrownRoot()
      requires Grown()
      ensures root.full == "" && forall p :: p in folders ==> folders[p].full == p
    {
      hide GrownAt;
      assert CellOf(root) == Contents()[root];
      forall p | p in folders ensures folders[p].full == p { assert CellOf(folders[p]) == Contents()[folders[p]]; }
    }

    lemma RootIndexed()
      requires Framed()
      ensures root in repr && "" in folders
    {
    }

    lemma NameKnown(name: string)
      requires Trie() && name in folders
      ensures folders.Keys + Prefixes(Chop(name)) == folders.Keys
    {
      KeyIsPath(name);
      if Chop(name) == name {
        KnownName(kids, name);
      } else {
        ChopIsDir(name);
        ParentIsFolder(name);
        KnownName(kids, Chop(name));
      }
    }

    lemma FolderKnown(name: string)
      requires Trie() && Dir(name) in folders && Path(name)
      ensures folders.Keys + PrefixesTo(name, |Split(name)| - 1) == folders.Keys
    {
      KnownFolder(kids, name);
    }

    lemma NextFits(par: TreeItem, text: string, path: string)
      requires Trie() && Path(path) && Dir(path) in folders && par == folders[Dir(path)] && text == Base(path)
      ensures Room(par, text, path) && (path in folders || Fits(par, text, path))
    {
    }

    /** `mid(0, lastIndexOf)`, which is the whole name if there is no slash. */
    static method DirName(s: string) returns (dirname: string)
      ensures dirname == Dir(s)
    {
      var last := LastSlash(s);
      dirname := if last < 0 then s else s[..last];
      if dirname == s { dirname := ""; }
    }

    /** One round of the loop over the configuration: the exact condition under
        which it keeps a trie. What is broken once stays so. */
    method AddName(name: string)
      requires Framed()
      modifies `folders, `kids, `repr, repr`children
      ensures Framed() && Later(old(folders), old(repr), folders, repr) && fresh(repr - old(repr))
      ensures old(Trie()) && Loads(old(folders.Keys), name) ==>
                Trie() && folders.Keys == old(folders.Keys) + Prefixes(Chop(name))
      ensures old(Trie()) && !Loads(old(folders.Keys), name) ==> Broken()
      ensures old(Broken()) ==> Broken()
      ensures old(Trie() && name !in folders && Chop(name) in folders) && Path(Chop(name)) ==>
                Dir(Chop(name)) in folders && Twice(folders[Dir(Chop(name))].children, Chop(name))
      ensures name == [SPLIT] && name !in old(folders) ==>
                folders[""] !in old(repr) && old(folders[""]).children == old(folders[""].children) + [folders[""]]
      ensures old(TopsNamed()) && Plain(name) ==> TopsNamed()
      ensures old(name !in folders && Dir(Chop(name)) in folders) ==> Hung(Chop(name))
      ensures old(Grown()) ==> Grown()
    {
      hide Grown, Trie, Broken, Later, TopsNamed, Prefix, PrefixesTo, Prefixes, Split, Dir, Base, LastSlash;
      if Trie() { KeysArePaths(); }
      if name in folders {
        LaterSame(folders, repr);
        if Trie() { NameKnown(name); }
        return;
      }
      var fullsessname := name;
      if name != "" && name[|name| - 1] == SPLIT {
        fullsessname := name[..|name| - 1];
      }
      AddNew(fullsessname);
      if old(Broken()) { StaysBroken(); }
    }

    /** The rest of the round, for a name not in the index, chopped. */
    method AddNew(fullsessname: string)
      requires Framed()
      modifies `folders, `kids, `repr, repr`children
      ensures Framed() && Later(old(folders), old(repr), folders, repr) && fresh(repr - old(repr))
      ensures old(Trie() && fullsessname !in folders) && Path(fullsessname) ==>
                Trie() && folders.Keys == old(folders.Keys) + Prefixes(fullsessname)
      ensures old(Trie() && fullsessname in folders) || (fullsessname != "" && !Path(fullsessname)) ==> Broken()
      ensures old(Trie() && fullsessname in folders) && Path(fullsessname) ==>
                Dir(fullsessname) in folders && Twice(folders[Dir(fullsessname)].children, fullsessname)
      ensures old(Dir(fullsessname) in folders) ==> Hung(fullsessname)
      ensures old(TopsNamed()) && fullsessname != "" && Filled(fullsessname) ==> TopsNamed()
      ensures old(Grown()) ==> Grown()
    {
      hide Grown, Trie, Broken, Later, TopsNamed, Prefixes, Dir, Base, Path, Twice, Filled;
      ghost var again := Trie() && Path(fullsessname) && fullsessname in folders;
      ghost var r: nat := 0;
      if again { r := Again(fullsessname); }
      if Trie() && fullsessname in folders { ParentIsFolder(fullsessname); }
      ghost var before := if again then folders[Dir(fullsessname)].children else [];
      AddItem(fullsessname);
      if again { TwoOfThem(before, folders[fullsessname], r, fullsessname); }
      if old(Trie() && fullsessname in folders) { NotTheOne(old(folders[fullsessname]), fullsessname); }
      if fullsessname != "" && !Path(fullsessname) { NoPath(fullsessname); }
    }

    method AddItem(fullsessname: string)
      requires Framed()
      modifies `folders, `kids, `repr, repr`children
      ensures Framed() && Later(old(folders), old(repr), folders, repr) && fresh(repr - old(repr))
      ensures fullsessname in folders && folders[fullsessname] !in old(repr) && folders[fullsessname].full == fullsessname
      ensures old(Trie() && fullsessname !in folders) && Path(fullsessname) ==>
                Trie() && folders.Keys == old(folders.Keys) + Prefixes(fullsessname)
      ensures old(Dir(fullsessname) in folders) ==> Hung(fullsessname)
      ensures old(TopsNamed()) && fullsessname != "" && Filled(fullsessname) ==> TopsNamed()
      ensures old(Grown()) ==> Grown()
    {
      hide Grown, Trie, Fits, Broken, Later, TopsNamed, Prefix, PrefixesTo, Prefixes, Split, Dir, Base, LastSlash, Path, Filled;
      ghost var good := Trie() && Path(fullsessname) && fullsessname !in folders;
      var split := Split(fullsessname);
      var sessname := split[|split| - 1];
      LastStep(fullsessname);
      if Filled(fullsessname) && fullsessname != "" { LastFilled(fullsessname); }
      var folder := FolderOf(fullsessname);
      if good { NextFits(folder, sessname, fullsessname); }
      ghost var f, all := folders, repr;
      Insert(folder, sessname, fullsessname);
      LaterOn(old(folders), old(repr), f, all, folders, repr);
    }

    /** A new item of this name hangs last in its folder and is in the index;
        nothing else has changed. */
    twostate predicate Hung(full: string)
      reads this, repr
    {
      && full in folders && Dir(full) in old(folders)
      && folders == old(folders)[full := folders[full]] && folders[full] in repr && folders[full] !in old(repr)
      && folders[full].full == full && folders[full].text == Base(full) && folders[full].children == []
      && old(repr) <= repr
      && forall x :: x in old(repr) ==>
           x.children == if x == old(folders[Dir(full)]) then old(x.children) + [folders[full]] else old(x.children)
    }

    /** The folder for a name, made with those above it if it is missing. */
    method FolderOf(fullsessname: string) returns (folder: TreeItem)
      requires Framed()
      modifies `folders, `kids, `repr, repr`children
      ensures Framed() && Later(old(folders), old(repr), folders, repr) && fresh(repr - old(repr))
      ensures Dir(fullsessname) in folders && folder == folders[Dir(fullsessname)] && folder in repr
      ensures old(Trie()) && Path(fullsessname) ==>
                Trie() && folders.Keys == old(folders.Keys) + PrefixesTo(fullsessname, |Split(fullsessname)| - 1)
      ensures old(Dir(fullsessname) in folders) ==> folders == old(folders) && repr == old(repr)
      ensures old(Dir(fullsessname) in folders) ==> forall x :: x in repr ==> x.children == old(x.children)
      ensures old(TopsNamed()) && Filled(fullsessname) ==> TopsNamed()
      ensures old(Grown()) ==> Grown() && folder.full == Dir(fullsessname)
    {
      hide Grown, Trie, Later, TopsNamed, Prefix, PrefixesTo, Prefixes, Split, Dir, Base, LastSlash, Path, Filled;
      var dirname := DirName(fullsessname);
      if dirname !in folders {
        MakeFolders(fullsessname);
      } else {
        LaterSame(folders, repr);
        if Trie() && Path(fullsessname) { FolderKnown(fullsessname); }
      }
      folder := folders[dirname];
      if Grown() { GrownRoot(); }
    }

    twostate lemma StaysBroken()
      requires old(Broken()) && Later(old(folders), old(repr), folders, repr)
      requires forall x :: x in old(repr) ==> x.full == old(x.full)
      ensures Broken()
    {
      var x :| x in old(repr) && old(!(Indexed(x) && (x.full == "" || Path(x.full))));
      assert x in repr && !(Indexed(x) && (x.full == "" || Path(x.full)));
    }

    /** An item whose path now leads to another one. */
    lemma NotTheOne(x: TreeItem, p: string)
      requires x in repr && x.full == p && p in folders && folders[p] != x
      ensures Broken()
    {
      assert !Indexed(x);
    }

    lemma NoPath(p: string)
      requires Framed() && p in folders && folders[p].full == p && p != "" && !Path(p)
      ensures Broken()
    {
      assert folders[p] in repr;
    }

    lemma KeysArePaths()
      requires Trie()
      ensures forall p :: p in folders ==> p == "" || Path(p)
    {
      forall p | p in folders ensures p == "" || Path(p) { KeyIsPath(p); }
    }

    lemma Again(p: string) returns (r: nat)
      requires Trie() && p in folders && Path(p)
      ensures Dir(p) in folders && Dir(p) != p && r < |folders[Dir(p)].children|
      ensures folders[Dir(p)].children[r] in repr && folders[Dir(p)].children[r].full == p
    {
      r := ChildOfPath(p);
      ParentIsFolder(p);
    }

    /** loadSessionNames: the tree of all the configured names, one item a path,
        and each of them found by its path, if and only if the names may be loaded. */
    method LoadSessionNames(names: seq<string>)
      modifies this
      ensures Framed() && fresh(repr)
      ensures Trie() <==> Loadable(names)
      ensures Finds() <==> Loadable(names)
      ensures Loadable(names) ==> folders.Keys == Index(names)
      ensures !Loadable(names) ==> Broken()
      ensures (forall i :: 0 <= i < |names| ==> Plain(names[i])) ==> TopsNamed()
      ensures Grown()
    {
      hide Grown, Trie, Framed, Finds, Broken, TopsNamed, Later, Loads, Plain, Prefixes, Path, Chop;
      Clear();
      Top();
      NoNames();
      var i := 0;
      while i < |names|
        invariant 0 <= i <= |names| && Framed() && Grown() && fresh(repr)
        invariant Loadable(names[..i]) ==> Trie() && folders.Keys == Index(names[..i])
        invariant !Loadable(names[..i]) ==> Broken()
        invariant (forall j :: 0 <= j < i ==> Plain(names[j])) ==> TopsNamed()
      {
        hide Loadable, Index;
        LoadableSnoc(names, i);
        IndexSnoc(names, i);
        AddName(names[i]);
        i := i + 1;
      }
      assert names[..i] == names;
      if Broken() { BrokenIsNoTrie(); }
      if Trie() { TrieFinds(); }
      if Finds() { FindsNotBroken(); }
    }

    /** The root alone. */
    method Clear()
      modifies this
      ensures fresh(root) && repr == {root} && folders == map["" := root] && root.children == []
      ensures Framed() && Trie() && TopsNamed() && Grown()
    {
      root := new TreeItem.Root();
      folders, kids, repr := map["" := root], map["" := []], {root};
      Single();
    }

    lemma Single()
      requires folders == map["" := root] && kids == map["" := []] && repr == {root}
      requires root.full == "" && root.parent == null && root.children == []
      ensures Trie() && TopsNamed() && Grown()
    {
      assert PathOk(kids, "");
      assert Holds("");
    }

    /** The rows below an item, looked through for a name. */
    method FindChild(par: TreeItem, name: string) returns (isfound: bool, ch: TreeItem?)
      ensures FirstChild(par.children, name) == if isfound then ch else null
      ensures isfound ==> ch != null
    {
      isfound, ch := false, null;
      var r := 0;
      while r < |par.children|
        invariant 0 <= r <= |par.children|
        invariant FirstChild(par.children, name) == FirstChild(par.children[r..], name)
      {
        ch := par.children[r];
        if ch.text == name { return true, ch; }
        r := r + 1;
      }
    }

    /** The way down from an item: at each level the first child of the next text. */
    ghost function Walk(item: TreeItem, texts: seq<string>): TreeItem?
      requires Framed() && item in repr
      reads this, repr
      decreases |texts|
    {
      if texts == [] then item
      else
        var c := FirstChild(item.children, texts[0]);
        if c == null then null else Walk(c, texts[1..])
    }

    /** Below the item of a folder, a text finds the item of the longer path, if
        that path is in the tree, and nothing else. */
    lemma ChildByText(p: string, q: string, r: nat)
      requires Trie() && p in folders && r < |folders[p].children| && folders[p].children[r].text == Base(q)
      requires Path(q) && Dir(q) == p
      ensures q in folders && folders[p].children[r] == folders[q]
    {
      hide Path, Dir, Base;
      assert Holds(p) && PathOk(kids, p);
      var c := kids[p][r];
      assert Holds(c) && PathOk(kids, c);
      PathByParts(c, q);
    }

    lemma ChildOfPath(q: string) returns (r: nat)
      requires Trie() && q in folders && q != ""
      ensures Dir(q) in folders && r < |folders[Dir(q)].children| && folders[Dir(q)].children[r] == folders[q]
      ensures folders[q].text == Base(q)
    {
      hide Dir, Base, Path;
      assert Holds(q) && PathOk(kids, q) && Holds(Dir(q));
      r :| 0 <= r < |kids[Dir(q)]| && kids[Dir(q)][r] == q;
    }

    /** No item at the top has the empty name. */
    lemma NoEmptyTop(r: nat)
      requires Trie() && r < |root.children|
      ensures root.children[r].text != ""
    {
      assert Holds("") && PathOk(kids, "");
      var c := kids[""][r];
      assert Holds(c) && PathOk(kids, c);
    }

    lemma FoundStep(s: string, i: nat, r: nat)
      requires Trie() && i < |Split(s)| && (i == 0 || Path(s)) && Prefix(s, i) in folders
      requires r < |folders[Prefix(s, i)].children| && folders[Prefix(s, i)].children[r].text == Split(s)[i]
      ensures Path(s) && Prefix(s, i + 1) in folders && folders[Prefix(s, i)].children[r] == folders[Prefix(s, i + 1)]
    {
      hide Path, Dir, Base, Holds, ShapeOk, Split;
      PrefixStep(s, i);
      if !Path(s) {
        FirstComponent(s);
        NoEmptyTop(r);
      } else {
        PrefixPath(s, i + 1);
        ChildByText(Prefix(s, i), Prefix(s, i + 1), r);
      }
    }

    lemma LostStep(s: string, i: nat)
      requires Trie() && i < |Split(s)| && Prefix(s, i) in folders
      requires forall r :: 0 <= r < |folders[Prefix(s, i)].children| ==> folders[Prefix(s, i)].children[r].text != Split(s)[i]
      ensures s == "" || s !in folders
    {
      hide Dir, Base, Holds, Split;
      if s != "" && s in folders {
        PrefixesIn(kids, s);
        PrefixStep(s, i);
        assert Prefix(s, i + 1) in Prefixes(s);
        assert PathOk(kids, s);
        PrefixPath(s, i + 1);
        var r := ChildOfPath(Prefix(s, i + 1));
      }
    }

    /** In a trie exactly the paths of the index are found, each with its own item. */
    lemma LookupInTrie(s: string)
      requires Trie()
      ensures Walk(root, Split(s)) == if s != "" && s in folders then folders[s] else null
    {
      hide Trie, Dir, Base, Split, Prefixes, PrefixesTo, Walk;
      Top();
      assert Prefix(s, 0) == "" && Split(s)[0..] == Split(s);
      var i := 0;
      while i < |Split(s)|
        invariant 0 <= i <= |Split(s)| && Prefix(s, i) in folders && (i > 0 ==> Path(s))
        invariant Framed() && folders[Prefix(s, i)] in repr
        invariant Walk(root, Split(s)) == Walk(folders[Prefix(s, i)], Split(s)[i..])
      {
        hide Prefix, Path, Framed;
        var item, texts := folders[Prefix(s, i)], Split(s)[i..];
        WalkStep(item, texts);
        assert texts[1..] == Split(s)[i + 1..];
        var c := FirstChild(item.children, texts[0]);
        if c == null {
          FirstChildNone(item.children, texts[0]);
          LostStep(s, i);
          return;
        }
        var r := FirstChildSome(item.children, texts[0]);
        FoundStep(s, i, r);
        ParentIsFolder(Prefix(s, i + 1));
        i := i + 1;
      }
      WalkStep(folders[Prefix(s, i)], Split(s)[i..]);
    }

    lemma WalkStep(item: TreeItem, texts: seq<string>)
      requires Framed() && item in repr
      ensures texts == [] ==> Walk(item, texts) == item
      ensures
        texts != [] ==>
          var c := FirstChild(item.children, texts[0]);
          (c != null ==> c in repr) && Walk(item, texts) == if c == null then null else Walk(c, texts[1..])
    {
    }

    lemma {:induction false} WalkLast(item: TreeItem, texts: seq<string>, text: string)
      requires Framed() && item in repr
      ensures
        var par := Walk(item, texts);
        && (par != null ==> par in repr)
        && Walk(item, texts + [text]) == if par == null then null else FirstChild(par.children, text)
      decreases |texts|
    {
      hide Framed;
      var all := texts + [text];
      WalkStep(item, all);
      WalkStep(item, texts);
      if texts == [] {
        var c := FirstChild(item.children, text);
        if c != null { WalkStep(c, all[1..]); }
      } else {
        assert all[1..] == texts[1..] + [text];
        var c := FirstChild(item.children, texts[0]);
        if c != null { WalkLast(c, texts[1..], text); }
      }
    }

    /** What was said of all the cells, for one item. */
    lemma GrownFacts(x: TreeItem)
      requires Grown() && x in repr
      ensures x.full in folders && folders[x.full] in repr && folders[x.full].full == x.full
      ensures x != root ==> x.parent != null && x.parent in repr && x in x.parent.children
      ensures forall c :: c in x.children ==> c in repr && c != root && c.text == Base(c.full) && Dir(c.full) == x.full
      ensures forall i, j :: 0 <= i < j < |x.children| ==>
                x.children[i] != x.children[j] && (x.children[i].full == x.children[j].full ==> !Indexed(x.children[i]))
      ensures folders[""] == root && x.full == "" ==> x == root
    {
      hide Dir, Base;
      var cells := Contents();
      assert GrownAt(root, folders, cells, x) && cells[x] == CellOf(x);
      var items := x.children;
      forall i | 0 <= i < |items|
        ensures items[i] in repr && items[i] != root && items[i].text == Base(items[i].full) && Dir(items[i].full) == x.full
        ensures items[i].full in folders && cells[items[i]] == CellOf(items[i])
      {
        assert FitsIn(root, cells, items[i], cells[x].full);
        assert GrownAt(root, folders, cells, items[i]);
      }
    }

    /** While the root is in the index, a name that begins with a slash does not
        find the item that has it. */
    lemma {:induction false} SlashNotFound(p: string)
      requires Grown() && folders[""] == root && !Path(p)
      ensures var y := Walk(root, Split(p)); y != null ==> y.full != p
      decreases |p|
    {
      hide GrownTree, Walk, Base;
      var y := Walk(root, Split(p));
      if HasSlash(p) {
        var par := Walk(root, Split(Dir(p)));
        WalkLast(root, Split(Dir(p)), Base(p));
        if y != null {
          GrownFacts(par);
          SlashNotFound(Dir(p));
        }
      } else {
        WalkLast(root, [], p);
        WalkStep(root, []);
        assert [] + [p] == [p];
        GrownFacts(root);
        if y != null { GrownFacts(y); }
      }
    }

    /** Every path of the index but the root's is found, with its own item. */
    ghost predicate Finds()
      requires Framed()
      reads this, repr
    {
      folders[""] == root && forall p :: p in folders && p != "" ==> Walk(root, Split(p)) == folders[p]
    }

    lemma FirstOfText(items: seq<TreeItem>, text: string, i: nat) returns (r: nat)
      requires i < |items| && items[i].text == text
      ensures r <= i && FirstChild(items, text) == items[r]
    {
      if items[0].text == text {
        r := 0;
      } else {
        var k := FirstOfText(items[1..], text, i - 1);
        r := k + 1;
      }
    }

    /** If they are all found, then every item is the one of its path: two items of
        one path would hang in one folder, where the search finds the first and the
        index has the last. */
    lemma {:induction false} FoundIsIndexed(x: TreeItem)
      requires Grown() && Finds() && x in repr
      ensures Indexed(x) && (x.full == "" || Path(x.full))
      decreases |x.full|
    {
      hide GrownTree, Walk, Base, Path, Dir, Finds;
      GrownRoot();
      GrownFacts(x);
      FindsMeans(x.full);
      if x != root {
        var p, y := x.full, folders[x.full];
        if !Path(p) { SlashNotFound(p); }
        GrownFacts(y);
        DirShorter(p);
        var par := x.parent;
        GrownFacts(par);
        GrownFacts(y.parent);
        FoundIsIndexed(par);
        FoundIsIndexed(y.parent);
        FoundInFolder(p, par);
        if x != y { FirstNotLast(par, x, y); }
      }
    }

    lemma FindsMeans(p: string)
      requires Framed() && Finds() && p in folders
      ensures folders[""] == root && (p != "" ==> Walk(root, Split(p)) == folders[p])
    {
    }

    /** Of two items of one name in a folder, the one in the index is not the first. */
    lemma FirstNotLast(par: TreeItem, x: TreeItem, y: TreeItem)
      requires Grown() && par in repr && x in par.children && y in par.children && x != y && x.full == y.full && Indexed(y)
      ensures FirstChild(par.children, Base(x.full)) != y
    {
      hide Grown, Base, Dir;
      GrownFacts(par);
      var i :| 0 <= i < |par.children| && par.children[i] == x;
      var j :| 0 <= j < |par.children| && par.children[j] == y;
      var r := FirstOfText(par.children, Base(x.full), i);
    }

    lemma FoundInFolder(p: string, par: TreeItem)
      requires Grown() && Finds() && par in repr && par.full == Dir(p) && Dir(p) in folders && folders[Dir(p)] == par && Path(p)
      ensures Walk(root, Split(p)) == FirstChild(par.children, Base(p))
    {
      hide GrownTree, Walk;
      if HasSlash(p) {
        WalkLast(root, Split(Dir(p)), Base(p));
      } else {
        WalkLast(root, [], p);
        WalkStep(root, []);
        assert [] + [p] == [p];
      }
    }

    lemma FindsNotBroken()
      requires Grown() && Finds()
      ensures !Broken()
    {
      forall x | x in repr ensures Indexed(x) && (x.full == "" || Path(x.full)) { FoundIsIndexed(x); }
    }

    lemma TrieFinds()
      requires Trie()
      ensures Finds()
    {
      hide Walk;
      Top();
      forall p | p in folders && p != "" ensures Walk(root, Split(p)) == folders[p] { LookupInTrie(p); }
    }

    /** While no top item has the empty text, no name that begins with a slash is
        ever found. */
    lemma LeadingSlashLost(s: string)
      requires Framed() && TopsNamed() && !Path(s)
      ensures Walk(root, Split(s)) == null
    {
      FirstComponent(s);
      WalkStep(root, Split(s));
    }

    /** findIndexForSessionName. */
    method FindIndexForSessionName(fullsessname: string) returns (ch: TreeItem?)
      requires Framed()
      ensures ch == Walk(root, Split(fullsessname))
      ensures Trie() ==> ch == if fullsessname != "" && fullsessname in folders then folders[fullsessname] else null
      ensures TopsNamed() && !Path(fullsessname) ==> ch == null
    {
      hide Trie, Split, Walk, TopsNamed, Path;
      var dirname := Split(fullsessname);
      if Trie() { LookupInTrie(fullsessname); }
      if TopsNamed() && !Path(fullsessname) { LeadingSlashLost(fullsessname); }
      var par := root;
      ch := null;
      var i := 0;
      assert dirname[0..] == dirname;
      while i < |dirname|
        invariant 0 <= i <= |dirname| && par in repr
        invariant Walk(root, dirname) == Walk(par, dirname[i..])
        invariant i > 0 ==> ch == par
      {
        hide Framed;
        WalkStep(par, dirname[i..]);
        var isfound: bool;
        isfound, ch := FindChild(par, dirname[i]);
        if !isfound {
          return null;
        }
        par := ch;
        i := i + 1;
      }
      WalkStep(par, dirname[i..]);
    }

    /** Both together: what is found in the tree of these names. */
    method LoadAndFind(names: seq<string>, name: string) returns (ch: TreeItem?)
      modifies this
      ensures Framed() && ch == Walk(root, Split(name)) && (Finds() <==> Loadable(names))
      ensures Loadable(names) ==> (ch != null <==> name != "" && name in Index(names)) && (ch != null ==> ch.full == name)
      ensures (forall i :: 0 <= i < |names| ==> Plain(names[i])) && !Path(name) ==> ch == null
    {
      hide Trie, Finds, Grown, Loadable, Index, Plain, Path, TopsNamed, Framed, Walk;
      LoadSessionNames(names);
      ch := FindIndexForSessionName(name);
      if Trie() && ch != null { ParentIsFolder(name); }
    }

    /** A name with a slash in front can stand in the way of others: with "/a", the
        ordinary names "a" and "a/b" find the item of "/a", and nothing. */
    method SlashInTheWay()
      modifies this
      ensures Framed() && folders.Keys == {"", "/a", "a", "a/b"}
      ensures Walk(root, Split("a")) == folders["/a"] != folders["a"] && Walk(root, Split("a/b")) == null
    {
      hide Parts, Split, Walk, Framed, Loadable;
      NamesInTheWay();
      InTheWay("/a", "a", "a/b", "a", "b");
    }

    /** Two names with one text at the top, and one below the second. */
    method InTheWay(first: string, second: string, lower: string, ghost text: string, ghost text': string)
      requires first != "" && second !in {"", first} && lower !in {"", first, second}
      requires Parts(first, "", text) && Parts(second, "", text) && Parts(lower, second, text')
      modifies this
      ensures Framed() && folders.Keys == {"", first, second, lower}
      ensures Walk(root, [text]) == folders[first] != folders[second] && Walk(root, [text, text']) == null
    {
      hide Parts, Walk, Framed;
      var a, b := TwoAtTheTop(first, second, text);
      var c := AddInFolder(lower, second, text');
      FirstInTheWay(a, text');
    }

    method TwoAtTheTop(first: string, second: string, ghost text: string) returns (a: TreeItem, b: TreeItem)
      requires first != "" && second !in {"", first} && Parts(first, "", text) && Parts(second, "", text)
      modifies this
      ensures Framed() && fresh(repr) && root in repr && a in repr && a != b && b != root && a != root
      ensures folders == map["" := root, first := a, second := b]
      ensures root.children == [a, b] && a.text == text && a.children == []
    {
      hide Parts, Trie, TopsNamed, Grown, Framed;
      Clear();
      a := AddInFolder(first, "", text);
      assert root.children == [a] && a.children == [];
      b := AddInFolder(second, "", text);
    }

    lemma FirstInTheWay(first: TreeItem, text: string)
      requires Framed() && root.children != [] && root.children[0] == first && first.children == []
      ensures Walk(root, [first.text]) == first && Walk(root, [first.text, text]) == null
    {
      hide Walk;
      WalkLast(root, [], first.text);
      WalkLast(root, [first.text], text);
      WalkStep(root, []);
      assert [] + [first.text] == [first.text] && [first.text] + [text] == [first.text, text];
    }

    method AddInFolder(name: string, ghost dir: string, ghost text: string) returns (item: TreeItem)
      requires Framed() && name !in folders && Parts(name, dir, text) && dir in folders
      modifies `folders, `kids, `repr, repr`children
      ensures Framed() && fresh(repr - old(repr)) && old(repr) <= repr
      ensures item in repr && item !in old(repr) && folders == old(folders)[name := item]
      ensures item.full == name && item.text == text && item.children == []
      ensures forall x :: x in old(repr) ==>
                x.children == if x == old(folders[dir]) then old(x.children) + [item] else old(x.children)
    {
      hide Dir, Base, Chop, Plain, Path, Loads, Trie, Broken, TopsNamed, Grown, Twice, Later, Prefixes, Framed;
      AddName(name);
      item := folders[name];
    }

    lemma Top()
      requires Trie()
      ensures Framed() && "" in folders && folders[""] == root && root in repr
    {
    }

    /** A way down the tree. */
    ghost predicate Descends(chain: seq<TreeItem>)
      reads this, repr, chain
    {
      && chain != [] && chain[0] == root
      && forall i :: 0 < i < |chain| ==> chain[i] in chain[i - 1].children
    }

    /** Whatever can be reached is the one item of its own path. */
    lemma {:induction false} ReachedIsIndexed(chain: seq<TreeItem>)
      requires Trie() && Descends(chain)
      ensures var item := chain[|chain| - 1]; item.full in folders && item == folders[item.full]
    {
      var n := |chain| - 1;
      if n == 0 {
        assert Holds("");
      } else {
        assert forall i :: 0 < i < n ==> chain[..n][i] in chain[..n][i - 1].children;
        ReachedIsIndexed(chain[..n]);
        var p := chain[n - 1].full;
        assert Holds(p) && PathOk(kids, p);
        assert chain[n] in chain[n - 1].children;
        var r :| 0 <= r < |chain[n - 1].children| && chain[n - 1].children[r] == chain[n];
        assert Holds(kids[p][r]);
      }
    }

    /** And every path of the index can be reached. */
    lemma {:induction false} IndexedIsReached(p: string) returns (chain: seq<TreeItem>)
      requires Trie() && p in folders
      ensures Descends(chain) && chain[|chain| - 1] == folders[p]
      decreases |p|
    {
      hide Base, Dir, Trie;
      if p == "" {
        Top();
        chain := [root];
      } else {
        var r := ChildOfPath(p);
        DirShorter(p);
        ParentIsFolder(p);
        var front := IndexedIsReached(Dir(p));
        chain := front + [folders[p]];
      }
    }

    /** getFullSessionName, which climbs to the root. */
    ghost function FullSessionName(item: TreeItem): string
      requires Trie() && item in repr && item.full in folders && folders[item.full] == item
      reads this, repr
      decreases |item.full|
    {
      if item.parent != null then
        ParentIsFolder(item.full);
        if item.parent.parent != null then FullSessionName(item.parent) + [SPLIT] + item.text else item.text
      else ""
    }

    lemma ParentIsFolder(p: string)
      requires Trie() && p in folders
      ensures folders[p].parent == null <==> p == ""
      ensures p != "" ==> Dir(p) in folders && folders[p].parent == folders[Dir(p)] && folders[Dir(p)].full == Dir(p) && |Dir(p)| < |p|
      ensures folders[p] in repr && folders[p].full == p && (p != "" ==> folders[p].text == Base(p) && Path(p))
    {
      assert Holds(p) && PathOk(kids, p);
      if p != "" {
        DirShorter(p);
        assert Holds(Dir(p));
      }
    }

    /** The name it finds is the one the tree was searched and built with. */
    lemma {:induction false} FullNameIsPath(p: string)
      requires Trie() && p in folders
      ensures folders[p] in repr && folders[p].full == p && FullSessionName(folders[p]) == p
      decreases |p|
    {
      hide Holds, ShapeOk;
      ParentIsFolder(p);
      if p != "" {
        ParentIsFolder(Dir(p));
        FullNameIsPath(Dir(p));
        assert HasSlash(p) <==> Dir(p) != "";
      }
    }
  }
}
