/** The article record shared by collection, storage and the digest. */
module Records {

  /** One normalised article: the dictionary built for each kept feed entry. */
  datatype Article = Article(
    title: string,
    url: string,
    summary: string,
    source: string,
    category: string,
    date: string)

  function Min(a: int, b: int): int {
    if a <= b then a else b
  }

  /** Python's slice `s[:n]`: the first `n` elements, or all of `s` when it is shorter. */
  function Prefix<T>(s: seq<T>, n: nat): (r: seq<T>)
    ensures |r| == Min(n, |s|)
    ensures r <= s
  {
    if |s| <= n then s else s[..n]
  }
}
