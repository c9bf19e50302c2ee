/** Visible paths, the storage keys that mirror them, and what a move does to both. */
module FilePaths {
  import opened Wrappers
  import opened FileTree

  // ---------------------------------------------------------------- names and keys

  /** A safe path segment. */
  predicate ValidSegment(s: string) {
    s != "" && s != "." && s != ".." && '/' !in s && '\\' !in s
  }

  ghost predicate ValidSegments(segments: seq<string>) {
    forall s | s in segments :: ValidSegment(s)
  }

  /** `path.Join` of valid segments: cleaning has nothing to do, so it only puts slashes between them. */
  function Join(segments: seq<string>): string {
    if segments == [] then ""
    else if |segments| == 1 then segments[0]
    else segments[0] + "/" + Join(segments[1..])
  }

  /** What cleaning leaves of the segments of a relative path: empty ones and dots go, and two dots take
      away the segment before them. */
  function Cleaned(segments: seq<string>): seq<string> {
    if segments == [] then []
    else
      var before, last := Cleaned(segments[..|segments| - 1]), segments[|segments| - 1];
      if last == "" || last == "." then before
      else if last == ".." && before != [] && before[|before| - 1] != ".." then before[..|before| - 1]
      else before + [last]
  }

  lemma {:induction false} CleaningKeepsValid(segments: seq<string>)
    requires ValidSegments(segments)
    ensures Cleaned(segments) == segments
  {
    if segments != [] {
      var init, last := segments[..|segments| - 1], segments[|segments| - 1];
      assert ValidSegment(last) && forall s | s in init :: s in segments;
      CleaningKeepsValid(init);
      assert segments == init + [last];
    }
  }

  /** A name without slashes is a safe segment exactly when cleaning leaves it where it stands. */
  lemma ValidIffKept(before: seq<string>, name: string)
    requires ValidSegments(before) && before != [] && '/' !in name && '\\' !in name
    ensures ValidSegment(name) <==> Cleaned(before + [name]) == before + [name]
  {
    var all := before + [name];
    CleaningKeepsValid(before);
    assert all[..|all| - 1] == before && ValidSegment(before[|before| - 1]);
    if !ValidSegment(name) {
      assert |Cleaned(all)| < |all|;
    }
  }

  lemma {:induction false} JoinSplits(a: seq<string>, b: seq<string>)
    requires a != [] && b != []
    ensures Join(a + b) == Join(a) + "/" + Join(b)
  {
    if |a| == 1 {
      assert (a + b)[1..] == b;
    } else {
      JoinSplits(a[1..], b);
      assert (a + b)[1..] == a[1..] + b;
      assert Join(a + b) == a[0] + "/" + (Join(a[1..]) + "/" + Join(b));
      assert Join(a) == a[0] + "/" + Join(a[1..]);
    }
  }

  /** The first separator ends the part that has none. */
  lemma {:induction false} FirstSeparator(sep: char, x: string, xs: string, y: string, ys: string)
    requires sep !in x && sep !in y && x + [sep] + xs == y + [sep] + ys
    ensures x == y && xs == ys
  {
    var s, t := x + [sep] + xs, y + [sep] + ys;
    assert (x != "" ==> x[0] in x) && (y != "" ==> y[0] in y);
    assert s[0] == if x == "" then sep else x[0];
    assert t[0] == if y == "" then sep else y[0];
    if x != "" && y != "" {
      assert s[1..] == x[1..] + [sep] + xs && t[1..] == y[1..] + [sep] + ys;
      FirstSeparator(sep, x[1..], xs, y[1..], ys);
      assert x == [x[0]] + x[1..] && y == [y[0]] + y[1..];
    } else {
      assert s[1..] == xs && t[1..] == ys;
    }
  }

  lemma JoinHasSlash(segments: seq<string>)
    ensures |segments| > 1 ==> '/' in Join(segments)
  {
    if |segments| > 1 {
      assert Join(segments)[|segments[0]|] == '/';
    }
  }

  lemma {:induction false} JoinInjective(a: seq<string>, b: seq<string>)
    requires a != [] && b != [] && ValidSegments(a) && ValidSegments(b) && Join(a) == Join(b)
    ensures a == b
  {
    assert a[0] in a && b[0] in b;
    JoinHasSlash(a);
    JoinHasSlash(b);
    if |a| > 1 && |b| > 1 {
      FirstSeparator('/', a[0], Join(a[1..]), b[0], Join(b[1..]));
      assert ValidSegments(a[1..]) && ValidSegments(b[1..]);
      JoinInjective(a[1..], b[1..]);
      assert a == [a[0]] + a[1..] && b == [b[0]] + b[1..];
    }
  }

  /** A number in decimal. */
  function Decimal(n: nat): string {
    if n < 10 then [Digit(n)] else Decimal(n / 10) + [Digit(n % 10)]
  }

  function Digit(n: nat): char
    requires n < 10
  {
    '0' + n as char
  }

  lemma {:induction false} DecimalDigits(n: nat)
    ensures Decimal(n) != "" && forall c | c in Decimal(n) :: '0' <= c <= '9'
  {
    if n >= 10 {
      DecimalDigits(n / 10);
    }
  }

  lemma {:induction false} DecimalInjective(m: nat, n: nat)
    requires Decimal(m) == Decimal(n)
    ensures m == n
  {
    DecimalDigits(m / 10);
    DecimalDigits(n / 10);
    var s := Decimal(m);
    if m >= 10 && n >= 10 {
      assert s[..|s| - 1] == Decimal(m / 10) == Decimal(n / 10);
      DecimalInjective(m / 10, n / 10);
      assert s[|s| - 1] == Digit(m % 10) == Digit(n % 10);
    } else {
      assert s[|s| - 1] == Digit(m % 10) == Digit(n % 10);
    }
  }

  /** Reading the digits gives the number back. */
  function Value(digits: string): int {
    if digits == "" then 0 else 10 * Value(digits[..|digits| - 1]) + (digits[|digits| - 1] as int - '0' as int)
  }

  lemma {:induction false} ValueOfDecimal(n: nat)
    ensures Value(Decimal(n)) == n
  {
    if n < 10 {
      assert Decimal(n)[..0] == "";
    } else {
      ValueOfDecimal(n / 10);
      assert Decimal(n)[..|Decimal(n)| - 1] == Decimal(n / 10);
    }
  }

  // ---------------------------------------------------------------- where a tree's keys start

  /** What a workspace contributes to its keys: its owner, and the slug made of its name. */
  datatype Workspace = Workspace(personal: bool, ownerID: nat, orgSlug: string, slug: string)

  type Workspaces = map<nat, Workspace>

  ghost predicate WorkspaceOk(ws: Workspace) {
    ValidSegment(ws.orgSlug) && '/' !in ws.slug && '\\' !in ws.slug
  }

  function WorkspaceSegment(id: nat, ws: Workspace): string {
    Decimal(id) + "-" + ws.slug
  }

  predicate OwnerFits(n: Node) {
    n.visibility == Private <==> n.ownerAccountID.Some?
  }

  function Base(workspaces: Workspaces, n: Node): seq<string>
    requires n.workspaceID in workspaces && OwnerFits(n)
  {
    var ws := workspaces[n.workspaceID];
    var owner := if ws.personal then ["personal", Decimal(ws.ownerID)] else ["organizations", ws.orgSlug];
    owner + ["workspaces", WorkspaceSegment(n.workspaceID, ws)]
    + if n.visibility == Private then ["my-files", Decimal(n.ownerAccountID.value)] else ["shared"]
  }

  lemma DecimalIsSegment(n: nat, rest: string)
    requires '/' !in rest && '\\' !in rest
    ensures ValidSegment(Decimal(n) + rest)
  {
    DecimalDigits(n);
    var s := Decimal(n) + rest;
    assert s[0] == Decimal(n)[0] && Decimal(n)[0] in Decimal(n);
  }

  lemma BaseValid(workspaces: Workspaces, n: Node)
    requires n.workspaceID in workspaces && OwnerFits(n) && WorkspaceOk(workspaces[n.workspaceID])
    ensures ValidSegments(Base(workspaces, n))
  {
    var ws := workspaces[n.workspaceID];
    DecimalIsSegment(ws.ownerID, "");
    DecimalIsSegment(n.workspaceID, "-" + ws.slug);
    assert Decimal(ws.ownerID) + "" == Decimal(ws.ownerID);
    assert Decimal(n.workspaceID) + ("-" + ws.slug) == WorkspaceSegment(n.workspaceID, ws);
    if n.visibility == Private {
      DecimalIsSegment(n.ownerAccountID.value, "");
      assert Decimal(n.ownerAccountID.value) + "" == Decimal(n.ownerAccountID.value);
    }
  }

  /** The keys of a tree spell where it belongs. */
  lemma BaseSpellsTree(workspaces: Workspaces, n: Node, path: seq<string>)
    requires n.workspaceID in workspaces && OwnerFits(n) && path != []
    ensures var ws := workspaces[n.workspaceID];
            Join(Base(workspaces, n) + path) ==
            (if ws.personal then Slashed("personal", Decimal(ws.ownerID)) else Slashed("organizations", ws.orgSlug))
            + "/" + Slashed("workspaces", Decimal(n.workspaceID) + "-" + ws.slug) + "/"
            + (if n.visibility == Private then Slashed("my-files", Decimal(n.ownerAccountID.value)) else "shared")
            + "/" + Join(path)
  {
    var ws := workspaces[n.workspaceID];
    var owner := if ws.personal then ["personal", Decimal(ws.ownerID)] else ["organizations", ws.orgSlug];
    var tree := if n.visibility == Private then ["my-files", Decimal(n.ownerAccountID.value)] else ["shared"];
    FourParts(owner, ["workspaces", WorkspaceSegment(n.workspaceID, ws)], tree, path);
    TwoSegments("workspaces", WorkspaceSegment(n.workspaceID, ws));
    TwoSegments("personal", Decimal(ws.ownerID));
    TwoSegments("organizations", ws.orgSlug);
    if n.visibility == Private {
      TwoSegments("my-files", Decimal(n.ownerAccountID.value));
    }
  }

  lemma FourParts(a: seq<string>, b: seq<string>, c: seq<string>, d: seq<string>)
    requires a != [] && b != [] && c != [] && d != []
    ensures Join(a + b + c + d) == Join(a) + "/" + Join(b) + "/" + Join(c) + "/" + Join(d)
  {
    JoinSplits(a + b + c, d);
    JoinSplits(a + b, c);
    JoinSplits(a, b);
  }

  ghost function Slashed(a: string, b: string): string {
    a + "/" + b
  }

  lemma TwoSegments(a: string, b: string)
    ensures Join([a, b]) == Slashed(a, b)
  {
    assert [a, b][1..] == [b];
  }

  lemma SegmentNamesWorkspace(a: nat, wa: Workspace, b: nat, wb: Workspace)
    requires WorkspaceSegment(a, wa) == WorkspaceSegment(b, wb)
    ensures a == b
  {
    DecimalDigits(a);
    DecimalDigits(b);
    FirstSeparator('-', Decimal(a), wa.slug, Decimal(b), wb.slug);
    DecimalInjective(a, b);
  }

  /** Keys of different trees never meet: the base names the workspace, the visibility and the owner. */
  lemma BaseInjective(workspaces: Workspaces, a: Node, p: seq<string>, b: Node, q: seq<string>)
    requires a.workspaceID in workspaces && OwnerFits(a) && b.workspaceID in workspaces && OwnerFits(b)
    requires p != [] && q != []
    requires Base(workspaces, a) + p == Base(workspaces, b) + q
    ensures SameTree(a, b) && p == q
  {
    var s := Base(workspaces, a) + p;
    assert s[3] == WorkspaceSegment(a.workspaceID, workspaces[a.workspaceID]) ==
           WorkspaceSegment(b.workspaceID, workspaces[b.workspaceID]);
    SegmentNamesWorkspace(a.workspaceID, workspaces[a.workspaceID], b.workspaceID, workspaces[b.workspaceID]);
    assert s[4] == (if a.visibility == Private then "my-files" else "shared") ==
           (if b.visibility == Private then "my-files" else "shared");
    assert |"my-files"| != |"shared"|;
    if a.visibility == Private {
      assert s[5] == Decimal(a.ownerAccountID.value) == Decimal(b.ownerAccountID.value);
      DecimalInjective(a.ownerAccountID.value, b.ownerAccountID.value);
    }
    assert Base(workspaces, a) == Base(workspaces, b);
    assert p == s[|Base(workspaces, a)|..] == q;
  }

  // ---------------------------------------------------------------- visible paths

  /** The names from the top of the tree down to the node. */
  ghost function PathOf(files: Files, id: nat): (path: seq<string>)
    requires Forest(files) && Live(files, id)
    ensures path != [] && path[|path| - 1] == files[id].name
    decreases Rank(files)[id]
  {
    (if files[id].parentID.Some? then PathOf(files, files[id].parentID.value) else []) + [files[id].name]
  }

  /** The index on live names: no two live nodes of a folder share a name. */
  ghost predicate NamesUnique(files: Files) {
    forall a, b | Live(files, a) && Live(files, b) && SameTree(files[a], files[b])
                  && files[a].parentID == files[b].parentID && files[a].name == files[b].name :: a == b
  }

  lemma {:induction false} PathInjective(files: Files, a: nat, b: nat)
    requires Forest(files) && NamesUnique(files) && Live(files, a) && Live(files, b)
    requires SameTree(files[a], files[b]) && PathOf(files, a) == PathOf(files, b)
    ensures a == b
    decreases Rank(files)[a]
  {
    var p := PathOf(files, a);
    if files[a].parentID.Some? {
      assert p[..|p| - 1] == PathOf(files, files[a].parentID.value);
    }
    if files[b].parentID.Some? {
      assert p[..|p| - 1] == PathOf(files, files[b].parentID.value);
    }
    if files[a].parentID.Some? && files[b].parentID.Some? {
      PathInjective(files, files[a].parentID.value, files[b].parentID.value);
    }
  }

  /** Every non-empty prefix of a path is the path of a node above, or of the node itself. */
  lemma {:induction false} NodeAtPrefix(files: Files, id: nat, m: nat) returns (a: nat)
    requires Forest(files) && Live(files, id) && 1 <= m <= |PathOf(files, id)|
    ensures Live(files, a) && Under(files, id, a) && SameTree(files[a], files[id])
    ensures PathOf(files, a) == PathOf(files, id)[..m]
    ensures m < |PathOf(files, id)| ==> a != id
    decreases Rank(files)[id]
  {
    var p := PathOf(files, id);
    if m == |p| {
      a := id;
    } else {
      a := NodeAtPrefix(files, files[id].parentID.value, m);
      assert p[..m] == PathOf(files, files[id].parentID.value)[..m];
    }
  }

  lemma {:induction false} UnderExtendsPath(files: Files, id: nat, root: nat)
    requires Forest(files) && Live(files, id) && Live(files, root) && Under(files, id, root)
    ensures PathOf(files, root) <= PathOf(files, id)
    decreases Rank(files)[id]
  {
    if id != root {
      UnderExtendsPath(files, files[id].parentID.value, root);
    }
  }

  // ---------------------------------------------------------------- what a move does to paths

  /** A move the database accepts: a live node, a fitting parent outside its own subtree, and no name
      taken twice afterwards. */
  ghost predicate Accepted(files: Files, id: nat, parent: Option<nat>, name: string) {
    && Forest(files) && NamesUnique(files) && Live(files, id)
    && ParentFits(files, files[id].(parentID := parent))
    && (parent.Some? ==> !Under(files, parent.value, id))
    && NamesUnique(Moved(files, id, parent, name))
  }

  lemma {:induction false} PathOutside(files: Files, id: nat, parent: Option<nat>, name: string, k: nat)
    requires Forest(files) && Live(files, id) && Live(files, k) && !Under(files, k, id)
    requires Forest(Moved(files, id, parent, name))
    ensures PathOf(Moved(files, id, parent, name), k) == PathOf(files, k)
    decreases Rank(files)[k]
  {
    var after := Moved(files, id, parent, name);
    assert Live(after, k) && after[k] == files[k];
    if files[k].parentID.Some? {
      PathOutside(files, id, parent, name, files[k].parentID.value);
    }
  }

  /** Inside the moved subtree only the part of the path down to the moved node is replaced. */
  lemma {:induction false} PathInside(files: Files, id: nat, parent: Option<nat>, name: string, k: nat)
    returns (rest: seq<string>)
    requires Forest(files) && Live(files, id) && Live(files, k) && Under(files, k, id)
    requires Forest(Moved(files, id, parent, name))
    ensures PathOf(files, k) == PathOf(files, id) + rest
    ensures PathOf(Moved(files, id, parent, name), k) == PathOf(Moved(files, id, parent, name), id) + rest
    decreases Rank(files)[k]
  {
    var after := Moved(files, id, parent, name);
    assert Live(after, k) && Live(after, id);
    if k == id {
      rest := [];
    } else {
      var p := files[k].parentID.value;
      var up := PathInside(files, id, parent, name, p);
      assert after[k] == files[k];
      rest := up + [files[k].name];
      assert PathOf(files, k) == PathOf(files, id) + rest;
      assert PathOf(after, k) == PathOf(after, id) + rest;
    }
  }

  /** No path inside the moved subtree is, after the move, the old path of any live node of the tree. */
  lemma NewPathsAreNew(files: Files, id: nat, parent: Option<nat>, name: string, k: nat, g: nat)
    requires Accepted(files, id, parent, name) && (parent != files[id].parentID || name != files[id].name)
    requires Forest(Moved(files, id, parent, name))
    requires Live(files, k) && Under(files, k, id) && Live(files, g) && SameTree(files[g], files[k])
    ensures PathOf(Moved(files, id, parent, name), k) != PathOf(files, g)
  {
    if Under(files, g, id) {
      NewPathsMissOldOnes(files, id, parent, name, k, g);
    } else {
      NewPathsMissOthers(files, id, parent, name, k, g);
    }
  }

  lemma StaysInItsTree(files: Files, id: nat, parent: Option<nat>, name: string, k: nat)
    requires id in files && Live(files, k)
    ensures Live(Moved(files, id, parent, name), k) && SameTree(Moved(files, id, parent, name)[k], files[k])
  {
  }

  lemma NewPathsMissOthers(files: Files, id: nat, parent: Option<nat>, name: string, k: nat, g: nat)
    requires Accepted(files, id, parent, name) && Forest(Moved(files, id, parent, name))
    requires Live(files, k) && Under(files, k, id) && Live(files, g) && !Under(files, g, id)
    requires SameTree(files[g], files[k])
    ensures Live(Moved(files, id, parent, name), k) && PathOf(Moved(files, id, parent, name), k) != PathOf(files, g)
  {
    StaysInItsTree(files, id, parent, name, k);
    StaysInItsTree(files, id, parent, name, g);
    PathOutside(files, id, parent, name, g);
    if PathOf(Moved(files, id, parent, name), k) == PathOf(files, g) {
      PathInjective(Moved(files, id, parent, name), k, g);
    }
  }

  lemma NewPathsMissOldOnes(files: Files, id: nat, parent: Option<nat>, name: string, k: nat, g: nat)
    requires Accepted(files, id, parent, name) && (parent != files[id].parentID || name != files[id].name)
    requires Forest(Moved(files, id, parent, name))
    requires Live(files, k) && Under(files, k, id) && Live(files, g) && Under(files, g, id)
    ensures PathOf(Moved(files, id, parent, name), k) != PathOf(files, g)
  {
    var rk := PathInside(files, id, parent, name, k);
    var rg := PathInside(files, id, parent, name, g);
    var was, now := PathOf(files, id), PathOf(Moved(files, id, parent, name), id);
    ShorterNewPath(files, id, parent, name);
    LongerNewPath(files, id, parent, name);
    OnePrefixOfOther(now, rk, was, rg);
  }

  lemma OnePrefixOfOther(a: seq<string>, ra: seq<string>, b: seq<string>, rb: seq<string>)
    ensures a + ra == b + rb ==> a <= b || b < a
  {
    if a + ra == b + rb {
      if |a| <= |b| {
        assert a == (a + ra)[..|a|] == b[..|a|];
      } else {
        assert b == (b + rb)[..|b|] == a[..|b|];
      }
    }
  }

  lemma ShorterNewPath(files: Files, id: nat, parent: Option<nat>, name: string)
    requires Accepted(files, id, parent, name) && (parent != files[id].parentID || name != files[id].name)
    requires Forest(Moved(files, id, parent, name)) && Live(Moved(files, id, parent, name), id)
    ensures !(PathOf(Moved(files, id, parent, name), id) <= PathOf(files, id))
  {
    var after := Moved(files, id, parent, name);
    var was, now := PathOf(files, id), PathOf(after, id);
    if now <= was {
      var a := NodeAtPrefix(files, id, |now|);
      if a == id {
        assert now == was;
        SamePathSamePlace(files, id, parent, name);
      } else {
        AncestorKeepsPath(files, id, parent, name, a);
        PathInjective(after, a, id);
      }
    }
  }

  lemma AncestorKeepsPath(files: Files, id: nat, parent: Option<nat>, name: string, a: nat)
    requires Accepted(files, id, parent, name) && Forest(Moved(files, id, parent, name))
    requires Live(files, a) && a != id && Under(files, id, a)
    ensures Live(Moved(files, id, parent, name), a) && PathOf(Moved(files, id, parent, name), a) == PathOf(files, a)
  {
    if Under(files, a, id) {
      UnderRank(files, a, id);
      UnderRank(files, id, a);
    }
    PathOutside(files, id, parent, name, a);
  }

  lemma SamePathSamePlace(files: Files, id: nat, parent: Option<nat>, name: string)
    requires Accepted(files, id, parent, name) && Forest(Moved(files, id, parent, name))
    requires Live(Moved(files, id, parent, name), id)
    requires PathOf(Moved(files, id, parent, name), id) == PathOf(files, id)
    ensures parent == files[id].parentID && name == files[id].name
  {
    var after := Moved(files, id, parent, name);
    var p := PathOf(files, id);
    if parent.Some? {
      PathOutside(files, id, parent, name, parent.value);
      assert p[..|p| - 1] == PathOf(after, parent.value);
    }
    if files[id].parentID.Some? {
      assert p[..|p| - 1] == PathOf(files, files[id].parentID.value);
    }
    if parent.Some? && files[id].parentID.Some? {
      PathInjective(files, parent.value, files[id].parentID.value);
    }
  }

  lemma NewPathHasParent(files: Files, id: nat, parent: Option<nat>, name: string)
    requires Accepted(files, id, parent, name)
    requires Forest(Moved(files, id, parent, name)) && Live(Moved(files, id, parent, name), id)
    ensures PathOf(Moved(files, id, parent, name), id) ==
            if parent.Some? then PathOf(files, parent.value) + [name] else [name]
    ensures |PathOf(files, id)| >= 1
  {
    if parent.Some? {
      PathOutside(files, id, parent, name, parent.value);
    }
  }

  lemma LongerNewPath(files: Files, id: nat, parent: Option<nat>, name: string)
    requires Accepted(files, id, parent, name)
    requires Forest(Moved(files, id, parent, name)) && Live(Moved(files, id, parent, name), id)
    ensures !(PathOf(files, id) < PathOf(Moved(files, id, parent, name), id))
  {
    var after := Moved(files, id, parent, name);
    var was, now := PathOf(files, id), PathOf(after, id);
    if was < now {
      NewPathHasParent(files, id, parent, name);
      assert was == PathOf(files, parent.value)[..|was|];
      var b := NodeAtPrefix(files, parent.value, |was|);
      PathInjective(files, b, id);
    }
  }
}
