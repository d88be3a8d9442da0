/** The compressed sparse row (CSR) view of a directed weighted graph shared by every
    search: node `u`'s outgoing edges are the indices `[offset[u], offset[u+1])` of the
    parallel arrays `vecinos` (edge targets) and `pesos` (edge weights). */
module Csr {

  datatype Grafo = Grafo(offset: seq<int>, vecinos: seq<int>, pesos: seq<int>, n: int)

  /** Every node `u < n` has a slice inside the parallel arrays and every target in that
      slice is a node `< n`. */
  ghost predicate BienFormado(g: Grafo)
  {
    0 <= g.n < |g.offset| && |g.pesos| == |g.vecinos| &&
    forall u :: 0 <= u < g.n ==> Tramo(g, u)
  }

  /** Node `u`'s slice lies inside the parallel arrays and only reaches nodes `< n`. */
  ghost predicate Tramo(g: Grafo, u: int)
  {
    0 <= u < g.n < |g.offset| && 0 <= g.offset[u] <= g.offset[u + 1] <= |g.vecinos| &&
    forall i :: g.offset[u] <= i < g.offset[u + 1] ==> 0 <= g.vecinos[i] < g.n
  }

  /** The bounds a search relies on before it walks node `u`'s slice. */
  lemma TramoDe(g: Grafo, u: int)
    requires BienFormado(g) && 0 <= u < g.n
    ensures 0 <= g.offset[u] <= g.offset[u + 1] <= |g.vecinos| == |g.pesos|
    ensures forall i :: g.offset[u] <= i < g.offset[u + 1] ==> 0 <= g.vecinos[i] < g.n
  {
    assert Tramo(g, u);
  }

  /** No edge weight is negative. */
  ghost predicate PesosNoNegativos(g: Grafo)
  {
    forall i :: 0 <= i < |g.pesos| ==> g.pesos[i] >= 0
  }

  /** `v` is the target of one of the edges in `u`'s slice. */
  ghost predicate Arista(g: Grafo, u: int, v: int)
  {
    0 <= u < g.n && u + 1 < |g.offset| &&
    exists i :: g.offset[u] <= i < g.offset[u + 1] && 0 <= i < |g.vecinos| && g.vecinos[i] == v
  }

  /** Reading index `i` of `u`'s slice yields an edge from `u` to that target. */
  lemma AristaEn(g: Grafo, u: int, i: int)
    requires BienFormado(g) && 0 <= u < g.n && g.offset[u] <= i < g.offset[u + 1]
    ensures 0 <= i < |g.vecinos| && Arista(g, u, g.vecinos[i]) && 0 <= g.vecinos[i] < g.n
  {
    assert Tramo(g, u);
  }

  /** `p` is a walk along edges of `g` from `origen` to `destino`. */
  ghost predicate CaminoDe(g: Grafo, p: seq<int>, origen: int, destino: int)
  {
    |p| > 0 && p[0] == origen && p[|p| - 1] == destino &&
    forall k :: 0 <= k < |p| - 1 ==> Arista(g, p[k], p[k + 1])
  }

  /** No node occurs twice in `p`. */
  ghost predicate SinRepetir(p: seq<int>)
  {
    forall i, j :: 0 <= i < j < |p| ==> p[i] != p[j]
  }

  /** Some walk leads from `origen` to `destino`. */
  ghost predicate Alcanzable(g: Grafo, origen: int, destino: int)
  {
    exists p :: CaminoDe(g, p, origen, destino)
  }

  /** No mark is removed on the way from `a` to `b`. */
  ghost predicate Crece(a: seq<bool>, b: seq<bool>)
  {
    |a| == |b| && forall v :: 0 <= v < |a| && a[v] ==> b[v]
  }

  /** The nodes a search still holds in its queue, stack or heap. */
  ghost function Elementos(s: seq<int>): set<int>
  {
    set k | 0 <= k < |s| :: s[k]
  }

  /** Every target at an edge index in `[desde, hasta)` is a node that is marked in `vis`
      or still pending in `pend`. */
  ghost predicate Cubiertos(g: Grafo, desde: int, hasta: int, vis: seq<bool>, pend: set<int>)
  {
    0 <= desde && hasta <= |g.vecinos| &&
    forall i :: desde <= i < hasta ==>
      0 <= g.vecinos[i] < |vis| && (vis[g.vecinos[i]] || g.vecinos[i] in pend)
  }

  /** A covered range stays covered when marks and pending nodes are only added, and grows
      by the next index once that target is marked or pending. */
  lemma Cubrir(g: Grafo, desde: int, hasta: int, vis: seq<bool>, pend: set<int>,
               vis2: seq<bool>, pend2: set<int>)
    requires Cubiertos(g, desde, hasta, vis, pend) && Crece(vis, vis2) && pend <= pend2
    requires 0 <= hasta < |g.vecinos| && 0 <= g.vecinos[hasta] < |vis|
    requires vis2[g.vecinos[hasta]] || g.vecinos[hasta] in pend2
    ensures Cubiertos(g, desde, hasta + 1, vis2, pend2)
  {
  }

  /** Every target in `u`'s slice is marked in `vis` or pending in `pend`. */
  ghost predicate Expandido(g: Grafo, u: int, vis: seq<bool>, pend: set<int>)
  {
    0 <= u && u + 1 < |g.offset| && Cubiertos(g, g.offset[u], g.offset[u + 1], vis, pend)
  }

  /** The frontier invariant of a search: every marked node, except those still `abiertos`
      (waiting to be expanded), has every out-neighbour marked or pending in `pend`. */
  ghost predicate Frontera(g: Grafo, vis: seq<bool>, pend: set<int>, abiertos: set<int>)
  {
    |vis| == g.n &&
    forall u :: 0 <= u < g.n && vis[u] && u !in abiertos ==> Expandido(g, u, vis, pend)
  }

  /** The frontier invariant survives marking more nodes (each newly marked one open),
      opening more nodes, and dropping pending nodes once they are marked. */
  lemma Ampliar(g: Grafo, vis: seq<bool>, pend: set<int>, abiertos: set<int>,
                vis2: seq<bool>, pend2: set<int>, abiertos2: set<int>)
    requires Frontera(g, vis, pend, abiertos) && Crece(vis, vis2) && abiertos <= abiertos2
    requires forall t :: t in pend ==> t in pend2 || (0 <= t < |vis2| && vis2[t])
    requires forall u :: 0 <= u < |vis| && vis2[u] && !vis[u] ==> u in abiertos2
    ensures Frontera(g, vis2, pend2, abiertos2)
  {
    forall u | 0 <= u < g.n && vis2[u] && u !in abiertos2
      ensures Expandido(g, u, vis2, pend2)
    {
      assert Expandido(g, u, vis, pend);
    }
  }

  /** Taking the first or the last element off, or appending one, changes the elements
      only by that one. */
  lemma ElementosPartes(s: seq<int>, x: int)
    ensures Elementos(s + [x]) == Elementos(s) + {x}
    ensures |s| > 0 ==> Elementos(s) == {s[0]} + Elementos(s[1..])
    ensures |s| > 0 ==> Elementos(s) == Elementos(s[..|s| - 1]) + {s[|s| - 1]}
  {
    var t := s + [x];
    assert forall k :: 0 <= k < |s| ==> t[k] == s[k];
    assert t[|s|] == x;
    if |s| > 0 {
      assert forall k :: 0 < k < |s| ==> s[1..][k - 1] == s[k];
      assert forall k :: 0 <= k < |s| - 1 ==> s[..|s| - 1][k] == s[k];
    }
  }

  /** Expanding one open node closes it. */
  lemma Cerrar(g: Grafo, vis: seq<bool>, pend: set<int>, abiertos: set<int>, u: int)
    requires Frontera(g, vis, pend, abiertos + {u}) && Expandido(g, u, vis, pend)
    ensures Frontera(g, vis, pend, abiertos)
  {
  }

  /** Once nothing is pending or open, the marked nodes are closed under edges: a marked
      origin means every node reachable from it is marked. */
  lemma Cerradura(g: Grafo, vis: seq<bool>, origen: int, destino: int)
    requires Frontera(g, vis, {}, {}) && 0 <= origen < g.n && vis[origen]
    requires Alcanzable(g, origen, destino)
    ensures 0 <= destino < g.n && vis[destino]
  {
    var p :| CaminoDe(g, p, origen, destino);
    var k := 0;
    while k < |p| - 1
      invariant 0 <= k < |p| && 0 <= p[k] < g.n && vis[p[k]]
    {
      assert Arista(g, p[k], p[k + 1]);
      var i :| g.offset[p[k]] <= i < g.offset[p[k] + 1] && 0 <= i < |g.vecinos| && g.vecinos[i] == p[k + 1];
      assert Expandido(g, p[k], vis, {});
      k := k + 1;
    }
  }

  /** A search that ends with its frontier closed, the origin marked and the destination
      unmarked has correctly found that no walk joins them. */
  lemma Inalcanzable(g: Grafo, vis: seq<bool>, origen: int, destino: int)
    requires Frontera(g, vis, {}, {}) && 0 <= origen < g.n && vis[origen]
    requires 0 <= destino < g.n && !vis[destino]
    ensures !Alcanzable(g, origen, destino)
  {
    if Alcanzable(g, origen, destino) {
      Cerradura(g, vis, origen, destino);
    }
  }

  /** The number of edges in the slices of nodes `u < |vis|` not marked in `vis`: a bound on
      how many more entries a search that expands each node once can still push. */
  ghost function SalidasLibres(g: Grafo, vis: seq<bool>): (r: int)
    requires BienFormado(g) && |vis| <= g.n
    ensures 0 <= r <= g.offset[|vis|] - g.offset[0]
  {
    if vis == [] then 0
    else
      var u := |vis| - 1;
      assert Tramo(g, u);
      SalidasLibres(g, vis[..u]) + (if vis[u] then 0 else g.offset[u + 1] - g.offset[u])
  }

  /** Marking the unmarked `v` removes exactly `v`'s out-degree from `SalidasLibres`. */
  lemma {:induction false} SalidasVisitar(g: Grafo, vis: seq<bool>, v: int)
    requires BienFormado(g) && |vis| <= g.n && 0 <= v < |vis| && !vis[v]
    ensures g.offset[v] <= g.offset[v + 1]
    ensures SalidasLibres(g, vis[v := true]) == SalidasLibres(g, vis) - (g.offset[v + 1] - g.offset[v])
  {
    var u := |vis| - 1;
    assert Tramo(g, v);
    if v < u {
      assert vis[v := true][..u] == vis[..u][v := true];
      SalidasVisitar(g, vis[..u], v);
    } else {
      assert vis[v := true][..u] == vis[..u];
    }
  }

  /** All slices lie in the edge arrays, so the unmarked slices hold at most `|vecinos|`
      edges. */
  lemma SalidasAcotadas(g: Grafo, vis: seq<bool>)
    requires BienFormado(g) && |vis| == g.n
    ensures SalidasLibres(g, vis) <= |g.vecinos|
  {
    if g.n > 0 {
      assert Tramo(g, 0) && Tramo(g, g.n - 1);
    } else {
      assert SalidasLibres(g, vis) == 0;
    }
  }

  /** A walk followed by one more edge is a walk. */
  lemma Extender(g: Grafo, p: seq<int>, origen: int, u: int, v: int)
    requires CaminoDe(g, p, origen, u) && Arista(g, u, v)
    ensures CaminoDe(g, p + [v], origen, v)
  {
    var q := p + [v];
    forall k | 0 <= k < |q| - 1
      ensures Arista(g, q[k], q[k + 1])
    {
      if k < |p| - 1 {
        assert q[k] == p[k] && q[k + 1] == p[k + 1];
      }
    }
  }

  /** Pigeonhole: a sequence of distinct nodes `< n` has at most `n` elements. */
  lemma {:induction false} Palomar(s: seq<int>, n: int)
    requires forall i :: 0 <= i < |s| ==> 0 <= s[i] < n
    requires SinRepetir(s) && n >= 0
    ensures |s| <= n
    decreases n
  {
    if |s| > 0 {
      assert 0 <= s[0] < n;
      var t := s;
      if j :| 0 <= j < |s| && s[j] == n - 1 {
        t := s[..j] + s[j + 1..];
        forall i | 0 <= i < |t|
          ensures t[i] == if i < j then s[i] else s[i + 1]
        {
        }
        forall a, b | 0 <= a < b < |t|
          ensures t[a] != t[b]
        {
        }
      }
      assert forall i :: 0 <= i < |t| ==> 0 <= t[i] < n - 1;
      Palomar(t, n - 1);
    }
  }
}
