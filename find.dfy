/** `Node.Find` of node.go: the lookup of a node by the path a walk gives it. */
module Finder {
  import opened Wrappers
  import opened Graphs
  import opened Nodes
  import opened Errors
  import opened Walkers

  /** `Find`'s visitor: stop at the first node whose walked path is `abspath`. */
  function Matcher(abspath: string): Visitor
  {
    (pa: Option<Attr>, a: Attr, path: string) => Action(path == abspath, false, false, false, None)
  }

  /**
   * `Find`: a receiver without `ModeRoot` is an error naming its path;
   * otherwise a walk from it stops at the first node whose walked path is
   * `abspath`, and that node is the result, or the path is not found.
   * The visitor records the matching node; here it is the last visit of a
   * stopped walk.
   */
  method Find(g: Tree, x: nat, abspath: string) returns (r: Result<nat, Error>)
    requires g.Valid() && Live(g.links, g.kids, x)
    ensures !IsRoot(g.data[x]) ==> r == Err(Wrapped("Find", NotRoot(AbsPath(g, x))))
    ensures IsRoot(g.data[x]) ==>
      var P := Preorder(g.links, g.kids, g.data, x);
      (r.Ok? <==> exists k | 0 <= k < |P| :: P[k].path == abspath)
      && (r.Ok? ==> exists k | 0 <= k < |P| :: P[k] == Visit(r.value, abspath) && forall j | 0 <= j < k :: P[j].path != abspath)
      && (r.Err? ==> r.error == NotFound(abspath))
  {
    if !IsRoot(g.data[x]) {
      return Err(Wrapped("Find", NotRoot(AbsPath(g, x))));
    }
    var w := new Walker();
    w.Walk(g, Some(x), Matcher(abspath));
    ghost var P := Preorder(g.links, g.kids, g.data, x);
    ghost var stops := Stopper(g.links, g.data, Matcher(abspath));
    FreshWalk(g.links, g.kids, g.data, Matcher(abspath), x);
    ThroughIsPrefix(stops, P);
    ghost var t := Through(stops, P);
    if w.stopped {
      var last := w.visits[|w.visits| - 1];
      assert t[|t| - 1] == P[|t| - 1];
      r := Ok(last.node);
    } else {
      NotHalted(stops, P);
      r := Err(NotFound(abspath));
    }
  }
}
