/**
 * The breadcrumb trail: one crumb per matched route except the root, labelled
 * by the shape of the matched path, and the bar that shows them.
 */
module BreadCrumbs {
  import opened Wrappers
  import opened Text
  import opened Seqs

  /** A matched route: its path and its path parameters. */
  datatype RouteMatch = RouteMatch(pathname: string, params: map<string, string>)

  datatype Crumb = Crumb(text: string, to: string)

  /** The `todoId` parameter is present and is not the empty string. */
  predicate HasTodoId(m: RouteMatch) {
    "todoId" in m.params && m.params["todoId"] != ""
  }

  predicate UnderTodos(path: string) {
    StartsWith(path, "/todos/")
  }

  /**
   * The label of a crumb, by the first rule of the chain that the match fits:
   * one of five fixed words, or "Todo #" followed by a non-empty id.
   */
  function Label(m: RouteMatch): (r: string)
    ensures r in {"Todos", "About", "New Todo", "Edit Todo", "Unknown"} || (|r| > 6 && r[..6] == "Todo #")
  {
    if m.pathname == "/todos" then "Todos"
    else if m.pathname == "/about" then "About"
    else if UnderTodos(m.pathname) && EndsWith(m.pathname, "/new") then "New Todo"
    else if UnderTodos(m.pathname) && EndsWith(m.pathname, "/edit") then "Edit Todo"
    else if UnderTodos(m.pathname) && HasTodoId(m) then
      var id := m.params["todoId"];
      assert ("Todo #" + id)[..6] == "Todo #";
      "Todo #" + id
    else "Unknown"
  }

  lemma {:induction false} TodoLabelPrefix(id: string)
    ensures |"Todo #" + id| >= 6
    ensures ("Todo #" + id)[4] == ' ' && ("Todo #" + id)[5] == '#'
  {
  }

  /**
   * The label tells which rule applied: each label is produced by exactly the
   * paths its rule names, the rules taking priority in the order of the chain.
   */
  lemma LabelClassifies(m: RouteMatch)
    ensures Label(m) == "Todos" <==> m.pathname == "/todos"
    ensures Label(m) == "About" <==> m.pathname == "/about"
    ensures Label(m) == "New Todo" <==> UnderTodos(m.pathname) && EndsWith(m.pathname, "/new")
    ensures Label(m) == "Edit Todo" <==> UnderTodos(m.pathname) && EndsWith(m.pathname, "/edit")
    ensures forall id :: Label(m) == "Todo #" + id <==>
      && UnderTodos(m.pathname) && !EndsWith(m.pathname, "/new") && !EndsWith(m.pathname, "/edit")
      && HasTodoId(m) && m.params["todoId"] == id
    ensures Label(m) == "Unknown" <==>
      && m.pathname != "/todos" && m.pathname != "/about"
      && !(UnderTodos(m.pathname) && (EndsWith(m.pathname, "/new") || EndsWith(m.pathname, "/edit") || HasTodoId(m)))
  {
    var p := m.pathname;
    if UnderTodos(p) {
      assert p[..7] == "/todos/";
      assert p != "/todos" && p != "/about";
    }
    if UnderTodos(p) && EndsWith(p, "/new") {
      assert p[|p| - 1] == 'w';
      assert !EndsWith(p, "/edit");
    }
    forall id ensures Label(m) == "Todo #" + id <==>
      && UnderTodos(p) && !EndsWith(p, "/new") && !EndsWith(p, "/edit")
      && HasTodoId(m) && m.params["todoId"] == id
    {
      TodoLabelPrefix(id);
      if UnderTodos(p) && !EndsWith(p, "/new") && !EndsWith(p, "/edit") && HasTodoId(m) {
        var given := m.params["todoId"];
        TodoLabelPrefix(given);
        if "Todo #" + given == "Todo #" + id {
          assert given == ("Todo #" + given)[6..] == ("Todo #" + id)[6..] == id;
        }
      }
    }
    var given := if "todoId" in m.params then m.params["todoId"] else "";
    TodoLabelPrefix(given);
  }

  /** The matches other than the root, in order. */
  function NonRoot(matches: seq<RouteMatch>): (r: seq<RouteMatch>)
    ensures forall k :: 0 <= k < |r| ==> r[k].pathname != "/"
    ensures forall m :: m in r <==> m in matches && m.pathname != "/"
    ensures IsSubsequence(r, matches)
  {
    if matches == [] then []
    else
      var rest := NonRoot(matches[1..]);
      assert forall m :: m in matches <==> m == matches[0] || m in matches[1..];
      assert matches == [matches[0]] + matches[1..];
      if matches[0].pathname != "/" then
        SubsequenceKeep(rest, matches[0], matches[1..]);
        [matches[0]] + rest
      else
        SubsequenceSkip(rest, matches[0], matches[1..]);
        rest
  }

  /** The crumb a match gives: its label, and a link to its own path. */
  function CrumbOf(m: RouteMatch): Crumb {
    Crumb(Label(m), m.pathname)
  }

  /** Each match turned into its crumb, in order. */
  function MapCrumbs(matches: seq<RouteMatch>): (r: seq<Crumb>)
    ensures |r| == |matches|
    ensures forall k :: 0 <= k < |r| ==> r[k] == CrumbOf(matches[k])
  {
    if matches == [] then [] else [CrumbOf(matches[0])] + MapCrumbs(matches[1..])
  }

  /** `breadcrumbs`: the non-root matches, each turned into its crumb. */
  function Crumbs(matches: seq<RouteMatch>): (r: seq<Crumb>)
    ensures forall c :: c in r <==> exists m :: m in matches && m.pathname != "/" && c == CrumbOf(m)
  {
    var kept := NonRoot(matches);
    var r := MapCrumbs(kept);
    forall c | c in r ensures exists m :: m in matches && m.pathname != "/" && c == CrumbOf(m) {
      var k :| 0 <= k < |r| && r[k] == c;
      assert kept[k] in kept;
    }
    forall m | m in matches && m.pathname != "/" ensures CrumbOf(m) in r {
      var k :| 0 <= k < |kept| && kept[k] == m;
      assert r[k] == CrumbOf(m);
    }
    r
  }

  /** The number of matches for the root path. */
  function RootCount(matches: seq<RouteMatch>): nat {
    if matches == [] then 0
    else (if matches[0].pathname == "/" then 1 else 0) + RootCount(matches[1..])
  }

  lemma {:induction false} CrumbsStep(matches: seq<RouteMatch>)
    requires matches != []
    ensures Crumbs(matches) ==
      (if matches[0].pathname != "/" then [CrumbOf(matches[0])] else []) + Crumbs(matches[1..])
  {
    var rest := NonRoot(matches[1..]);
    if matches[0].pathname != "/" {
      assert ([matches[0]] + rest)[1..] == rest;
    }
  }

  /**
   * The trail is the per-match crumbs with the root ones dropped: an ordered
   * selection of them, one fewer for every root match, none of them linking
   * to the root, and each linking to the path of the match it came from.
   */
  lemma {:induction false} CrumbsSpec(matches: seq<RouteMatch>)
    ensures IsSubsequence(Crumbs(matches), MapCrumbs(matches))
    ensures |Crumbs(matches)| + RootCount(matches) == |matches|
    ensures forall c :: c in Crumbs(matches) ==> c.to != "/"
    ensures forall c :: c in Crumbs(matches) ==> exists m :: m in matches && c == Crumb(Label(m), m.pathname)
  {
    if matches != [] {
      CrumbsSpec(matches[1..]);
      CrumbsStep(matches);
      assert MapCrumbs(matches) == [CrumbOf(matches[0])] + MapCrumbs(matches[1..]);
      var rest := Crumbs(matches[1..]);
      if matches[0].pathname != "/" {
        SubsequenceKeep(rest, CrumbOf(matches[0]), MapCrumbs(matches[1..]));
      } else {
        SubsequenceSkip(rest, CrumbOf(matches[0]), MapCrumbs(matches[1..]));
      }
      forall c | c in Crumbs(matches) ensures exists m :: m in matches && c == Crumb(Label(m), m.pathname) {
        if c == CrumbOf(matches[0]) {
          assert matches[0] in matches;
        } else {
          assert c in rest;
          var m :| m in matches[1..] && c == Crumb(Label(m), m.pathname);
          assert m in matches;
        }
      }
    }
  }

  /** What the bar shows after its "Home" link: a link per crumb, except the last, shown as plain text. */
  datatype Item = Link(text: string, to: string) | Current(text: string)

  /** The breadcrumb bar, or nothing at all when there are no crumbs. */
  function Render(crumbs: seq<Crumb>): (r: Option<seq<Item>>)
    ensures r.None? <==> crumbs == []
    ensures r.Some? ==> |r.value| == |crumbs| + 1 && r.value[0] == Link("Home", "/")
    ensures r.Some? ==> r.value[|crumbs|] == Current(crumbs[|crumbs| - 1].text)
    ensures r.Some? ==> forall k :: 0 <= k < |crumbs| - 1 ==> r.value[k + 1] == Link(crumbs[k].text, crumbs[k].to)
  {
    if crumbs == [] then None
    else
      var last := |crumbs| - 1;
      Some([Link("Home", "/")] +
           seq(|crumbs|, k requires 0 <= k < |crumbs| =>
             if k == last then Current(crumbs[k].text) else Link(crumbs[k].text, crumbs[k].to)))
  }

  /** The bar is left out exactly when every match is the root. */
  lemma BarShownUnlessOnlyRoot(matches: seq<RouteMatch>)
    ensures Render(Crumbs(matches)).None? <==> forall m :: m in matches ==> m.pathname == "/"
  {
    var kept := NonRoot(matches);
    if kept != [] {
      assert kept[0] in kept;
    }
  }
}
