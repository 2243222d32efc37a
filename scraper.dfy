/** The pure part of `facebook_scraper.py`: URL building and child access. */
module Scraper {
  import opened Wrappers
  import opened Text
  import Utils
  import Config

  /** A markup element: what it carries, and its children in document order. */
  datatype Element<A> = Element(data: A, children: seq<Element<A>>)

  const Slash: set<char> := {'/'}

  /** `create_url(path)`: the site root, a slash, and `path` with every leading and trailing `/` removed. */
  function CreateUrl(path: string): (r: string)
    ensures var n := |Config.HomeUri| + 1; n <= |r| <= n + |path| && r[..n] == Config.HomeUri + "/"
    ensures var m := r[|Config.HomeUri| + 1..]; m != [] ==> m[0] != '/' && m[|m| - 1] != '/'
  {
    Config.HomeUri + "/" + Strip(path, Slash)
  }

  /**
   * The part after the root and slash never begins or ends with `/`, and it is
   * a contiguous piece of `path` with only slashes cut from either side, so
   * interior slashes are kept.
   */
  lemma CreateUrlShape(path: string)
    ensures var m := Strip(path, Slash); var i := StripStart(path, Slash);
      CreateUrl(path) == Config.HomeUri + "/" + m &&
      (m != [] ==> m[0] != '/' && m[|m| - 1] != '/') &&
      i + |m| <= |path| && m == path[i..i + |m|] &&
      AllIn(path[..i], Slash) && AllIn(path[i + |m|..], Slash)
  {
    StripIsSlice(path, Slash);
  }

  /** Adding slashes at either end does not change the URL. */
  lemma CreateUrlPadded(path: string)
    ensures CreateUrl("/" + path + "/") == CreateUrl(path)
  {
    StripPadMore("/", path, "/", Slash);
  }

  /** Stripping the path first does not change the URL. */
  lemma CreateUrlStripped(path: string)
    ensures CreateUrl(Strip(path, Slash)) == CreateUrl(path)
  {
    StripIdempotent(path, Slash);
  }

  /** A path with no slash at either end appears verbatim after the root. */
  lemma CreateUrlVerbatim(path: string)
    requires path != [] ==> path[0] != '/' && path[|path| - 1] != '/'
    ensures CreateUrl(path) == Config.HomeUri + "/" + path
  {
    StripClean(path, Slash);
  }

  /** One leading slash in front of a clean path is stripped away. */
  lemma StripLeadingSlash(path: string)
    requires path != [] ==> path[0] != '/' && path[|path| - 1] != '/'
    ensures Strip("/" + path, Slash) == path
  {
    assert "/" + path + "" == "/" + path;
    StripPadded("/", path, "", Slash);
  }

  /** `get_nth_child(n, e)`: the `n`-th child, or `None` (StopIteration) when there are not that many. */
  function GetNthChild<A>(n: nat, e: Element<A>): (r: Option<Element<A>>)
    ensures r.Some? <==> n < |e.children|
    ensures r.Some? ==> r.value == e.children[n]
  {
    Utils.TakeNth(n, e.children)
  }

  /** `get_first_child = partial(get_nth_child, 0)`. */
  function GetFirstChild<A>(e: Element<A>): (r: Option<Element<A>>)
    ensures r.Some? <==> e.children != []
    ensures r.Some? ==> r.value == e.children[0]
  {
    GetNthChild(0, e)
  }

  /** `get_first_child` over a value that may already have failed: a failure stays a failure. */
  function FirstChildOf<A>(o: Option<Element<A>>): Option<Element<A>>
  {
    if o.Some? then GetFirstChild(o.value) else None
  }

  /** The element reached by descending through first children `k` times, if there is one. */
  function FirstDescendant<A>(e: Element<A>, k: nat): Option<Element<A>>
  {
    if k == 0 then Some(e)
    else if e.children == [] then None
    else FirstDescendant(e.children[0], k - 1)
  }

  /** `get_first_child` applied `k` times reaches the `k`-th first descendant. */
  lemma {:induction false} ApplyFirstChild<A>(e: Element<A>, k: nat)
    ensures Utils.Apply(FirstChildOf, k, Some(e)) == FirstDescendant(e, k)
  {
    if k > 0 {
      Utils.ApplyShift(FirstChildOf, k - 1, Some(e));
      if e.children == [] {
        ApplyNone<A>(k - 1);
      } else {
        ApplyFirstChild(e.children[0], k - 1);
      }
    }
  }

  lemma {:induction false} ApplyNone<A>(k: nat)
    ensures Utils.Apply(FirstChildOf<A>, k, None) == None
  {
    if k > 0 {
      ApplyNone<A>(k - 1);
    }
  }
}
