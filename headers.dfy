/** `http.Header`: a multi-valued map from (canonical) header name to the list
    of its values, and the `Set`/`Add` operations the proxy uses on it. */
module Headers {

  type Header = map<string, seq<string>>

  /** `h[k]` in Go: a missing key reads as an empty list. */
  function Values(h: Header, k: string): seq<string>
  {
    if k in h then h[k] else []
  }

  /** `Header.Set(k, v)`: the key now holds exactly `[v]`. */
  function SetValue(h: Header, k: string, v: string): (r: Header)
    ensures Values(r, k) == [v]
    ensures forall j :: j != k ==> Values(r, j) == Values(h, j)
  {
    h[k := [v]]
  }

  /** `Header.Add(k, v)`: `v` is appended to the values of `k`. */
  function AddValue(h: Header, k: string, v: string): (r: Header)
    ensures Values(r, k) == Values(h, k) + [v]
    ensures forall j :: j != k ==> Values(r, j) == Values(h, j)
    ensures r.Keys == h.Keys + {k}
  {
    h[k := Values(h, k) + [v]]
  }

  /** What `for hn, hvs := range src { for _, hv := range hvs { dst.Add(hn, hv) } }`
      leaves in `dst`: every list of `src` appended to `dst`'s list for that name.
      A name whose list in `src` is empty is never added. */
  function Merged(dst: Header, src: Header): Header
  {
    map k | k in dst.Keys + (set j | j in src && src[j] != []) :: Values(dst, k) + Values(src, k)
  }

  /** Copying `src` onto `dst` keeps every value already there and appends, per name,
      exactly the values `src` lists, in their order. */
  lemma MergedValues(dst: Header, src: Header)
    ensures forall k :: k in Merged(dst, src) <==> k in dst || (k in src && src[k] != [])
    ensures forall k :: Values(Merged(dst, src), k) == Values(dst, k) + Values(src, k)
  {
  }

  /** The part of `src` whose names are in `keys`. */
  function Part(src: Header, keys: set<string>): Header
  {
    map k | k in src && k in keys :: src[k]
  }

  /** Two headers with the same names and the same lists are equal. */
  lemma HeaderExt(a: Header, b: Header)
    requires forall k :: k in a <==> k in b
    requires forall k :: Values(a, k) == Values(b, k)
    ensures a == b
  {
    forall k | k in a ensures a[k] == b[k] {
      assert Values(a, k) == Values(b, k);
    }
  }

  /** Appending a list of values under one name; an empty list adds nothing. */
  function AddList(h: Header, hn: string, vs: seq<string>): Header
  {
    if vs == [] then h else h[hn := Values(h, hn) + vs]
  }

  lemma AddListStep(h: Header, hn: string, vs: seq<string>, v: string)
    ensures AddValue(AddList(h, hn, vs), hn, v) == AddList(h, hn, vs + [v])
  {
    if vs != [] {
      var r := AddList(h, hn, vs);
      assert Values(r, hn) == Values(h, hn) + vs;
      assert Values(h, hn) + vs + [v] == Values(h, hn) + (vs + [v]);
    } else {
      assert vs + [v] == [v];
    }
  }

  /** The inner loop: `for _, hv := range hvs { h.Add(hn, hv) }`. */
  method AddValues(h: Header, hn: string, hvs: seq<string>) returns (r: Header)
    ensures r == AddList(h, hn, hvs)
  {
    r := h;
    var i := 0;
    while i < |hvs|
      invariant 0 <= i <= |hvs|
      invariant r == AddList(h, hn, hvs[..i])
    {
      AddListStep(h, hn, hvs[..i], hvs[i]);
      assert hvs[..i + 1] == hvs[..i] + [hvs[i]];
      r := AddValue(r, hn, hvs[i]);
      i := i + 1;
    }
    assert hvs[..i] == hvs;
  }

  lemma MergedStep(dst: Header, src: Header, done: set<string>, hn: string)
    requires hn in src && hn !in done
    ensures AddList(Merged(dst, Part(src, done)), hn, src[hn]) == Merged(dst, Part(src, done + {hn}))
  {
    var before := Part(src, done);
    var after := Part(src, done + {hn});
    var a := AddList(Merged(dst, before), hn, src[hn]);
    var b := Merged(dst, after);
    MergedValues(dst, before);
    MergedValues(dst, after);
    forall k ensures (k in a <==> k in b) && Values(a, k) == Values(b, k) {
      if k == hn {
        assert Values(before, k) == [];
        assert Values(after, k) == src[hn];
      } else {
        assert Values(before, k) == Values(after, k);
      }
    }
    HeaderExt(a, b);
  }

  lemma MergedNothing(dst: Header)
    ensures Merged(dst, Part(map[], {})) == dst
  {
    assert Part(map[], {}) == map[];
    MergedValues(dst, map[]);
    HeaderExt(Merged(dst, map[]), dst);
  }

  lemma PartAll(src: Header)
    ensures Part(src, src.Keys) == src
  {
  }

  /** The nested `Add` loops of the proxy (request headers copied onto the outgoing
      request, upstream headers copied onto the response). Map iteration order is
      unspecified in Go; the loop picks names in any order and the result is the same. */
  method AddAll(dst: Header, src: Header) returns (r: Header)
    ensures r == Merged(dst, src)
  {
    r := dst;
    var todo := src.Keys;
    ghost var done: set<string> := {};
    MergedNothing(dst);
    assert Part(src, {}) == Part(map[], {});
    while todo != {}
      invariant todo <= src.Keys && done == src.Keys - todo
      invariant r == Merged(dst, Part(src, done))
      decreases todo
    {
      var hn :| hn in todo;
      MergedStep(dst, src, done, hn);
      r := AddValues(r, hn, src[hn]);
      todo := todo - {hn};
      done := done + {hn};
    }
    PartAll(src);
  }
}
