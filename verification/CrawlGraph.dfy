/** The part of the web that a crawl can see, and distances along its links. */
module CrawlGraph {

  type Url = string

  /** What visiting a URL comes to: robots.txt forbids it, every attempt fails, or a page with links. */
  datatype Page = Disallowed | Unfetchable | Fetched(outlinks: seq<Url>)

  type Web = map<Url, Page>

  function Visit(web: Web, url: Url): Page {
    if url in web then web[url] else Unfetchable
  }

  function Outlinks(web: Web, url: Url): seq<Url> {
    if Visit(web, url).Fetched? then Visit(web, url).outlinks else []
  }

  ghost predicate Path(web: Web, seeds: seq<Url>, p: seq<Url>) {
    p != [] && p[0] in seeds && forall i | 0 < i < |p| :: p[i] in Outlinks(web, p[i - 1])
  }

  /** `url` lies `d` links from a seed, along outlinks of pages that were allowed and fetched. */
  ghost predicate Reaches(web: Web, seeds: seq<Url>, url: Url, d: nat) {
    exists p :: Path(web, seeds, p) && |p| == d + 1 && p[d] == url
  }

  ghost predicate Within(web: Web, seeds: seq<Url>, url: Url, d: nat) {
    exists k: nat :: k <= d && Reaches(web, seeds, url, k)
  }

  ghost predicate IsDistance(web: Web, seeds: seq<Url>, url: Url, d: nat) {
    Reaches(web, seeds, url, d) && forall k: nat | k < d :: !Reaches(web, seeds, url, k)
  }

  lemma SeedsAreReached(web: Web, seeds: seq<Url>, url: Url)
    requires url in seeds
    ensures Reaches(web, seeds, url, 0)
  {
    assert Path(web, seeds, [url]);
  }

  lemma LinkIsReached(web: Web, seeds: seq<Url>, url: Url, d: nat, link: Url)
    requires Reaches(web, seeds, url, d) && link in Outlinks(web, url)
    ensures Reaches(web, seeds, link, d + 1)
  {
    var p :| Path(web, seeds, p) && |p| == d + 1 && p[d] == url;
    assert Path(web, seeds, p + [link]);
    assert (p + [link])[d + 1] == link;
  }

  /** Every URL that a crawl of the web from these seeds can come across. */
  ghost function Universe(web: Web, seeds: seq<Url>): set<Url> {
    (set u | u in seeds) + (set u, v | u in web.Keys && v in Outlinks(web, u) :: v)
  }

  lemma OutlinksAreInUniverse(web: Web, seeds: seq<Url>, url: Url)
    ensures forall v | v in Outlinks(web, url) :: v in Universe(web, seeds)
  {
    forall v | v in Outlinks(web, url) ensures v in Universe(web, seeds) {
      assert url in web.Keys;
    }
  }

  lemma ReachedIsInUniverse(web: Web, seeds: seq<Url>, url: Url, d: nat)
    requires Reaches(web, seeds, url, d)
    ensures url in Universe(web, seeds)
  {
    var p :| Path(web, seeds, p) && |p| == d + 1 && p[d] == url;
    if d > 0 { OutlinksAreInUniverse(web, seeds, p[d - 1]); }
  }
}
