/** Fixed-capacity containers used by the large-graph searches: a circular FIFO queue,
    an array-backed binary min-heap with duplicate entries, a LIFO stack and a bump-allocating
    memory pool.  Every container silently ignores a push when it is full and reports -1
    (or no block) when it is asked for an element it does not have. */
module EstructurasGrandes {

  const TAM_MAX_GRANDE: int := 1000000
  const PQ_MAX_GRANDE: int := 1000000

  /** Advancing a circular index by one wraps to 0 exactly at the capacity. */
  lemma Siguiente(a: int, cap: int)
    requires 0 <= a < cap
    ensures (a + 1) % cap == if a + 1 == cap then 0 else a + 1
  {
    if a + 1 == cap {
      assert (a + 1) % cap == 0;
    }
  }

  /** The occupied length of a circular buffer is `(fin - frente) mod cap`. */
  lemma Ocupados(frente: int, fin: int, cap: int)
    requires 0 <= frente < cap && 0 <= fin < cap
    ensures (fin - frente) % cap == if frente <= fin then fin - frente else cap - frente + fin
  {
    if fin < frente {
      assert fin - frente == -1 * cap + (cap - frente + fin);
    }
  }

  /** Circular FIFO queue of ints over `datos[0..capacidad)`; one slot always stays free, so
      it holds at most `capacidad - 1` items. */
  class ColaGrande {
    const datos: array<int>
    var frente: int
    var fin: int
    const capacidad: int

    ghost predicate Valid()
      reads this
    {
      datos.Length == capacidad && capacidad > 0 &&
      0 <= frente < capacidad && 0 <= fin < capacidad
    }

    /** The queued items, oldest first. */
    ghost function Contents(): (c: seq<int>)
      reads this, datos
      requires Valid()
      ensures |c| == if frente <= fin then fin - frente else capacidad - frente + fin
      ensures |c| < capacidad
    {
      if frente <= fin then datos[frente..fin] else datos[frente..] + datos[..fin]
    }

    constructor (cap: int)
      requires cap > 0
      ensures Valid() && fresh(datos)
      ensures capacidad == cap && Contents() == []
    {
      capacidad := cap;
      datos := new int[cap];
      frente := 0;
      fin := 0;
    }

    function Vacia(): (b: bool)
      reads this, datos
      requires Valid()
      ensures b <==> Contents() == []
    {
      frente == fin
    }

    function Llena(): (b: bool)
      reads this, datos
      requires Valid()
      ensures b <==> |Contents()| == capacidad - 1
    {
      Siguiente(fin, capacidad);
      (fin + 1) % capacidad == frente
    }

    method Encolar(valor: int)
      requires Valid()
      modifies this, datos
      ensures Valid()
      ensures Contents() == if |old(Contents())| == capacidad - 1 then old(Contents())
                            else old(Contents()) + [valor]
    {
      if !Llena() {
        ghost var antes := Contents();
        datos[fin] := valor;
        if frente <= fin {
          assert antes == datos[frente..fin];
        } else {
          assert antes == datos[frente..] + datos[..fin];
        }
        Siguiente(fin, capacidad);
        fin := (fin + 1) % capacidad;
        if fin == 0 {
          assert datos[..fin] == [];
        }
      }
    }

    method Desencolar() returns (val: int)
      requires Valid()
      modifies this
      ensures Valid()
      ensures old(Contents()) == [] ==> val == -1 && frente == old(frente) && fin == old(fin)
      ensures old(Contents()) != [] ==> val == old(Contents())[0] && Contents() == old(Contents())[1..]
    {
      if !Vacia() {
        val := datos[frente];
        Siguiente(frente, capacidad);
        frente := (frente + 1) % capacidad;
        return;
      }
      val := -1;
    }

    method Limpiar()
      requires Valid()
      modifies this
      ensures Valid()
      ensures Contents() == []
    {
      frente := 0;
      fin := 0;
    }
  }

  /** LIFO stack of ints; `tope` is the index of the top item, -1 when empty. */
  class StackGrande {
    const datos: array<int>
    var tope: int
    const capacidad: int

    ghost predicate Valid()
      reads this
    {
      datos.Length == capacidad && -1 <= tope < capacidad
    }

    /** The stacked items, bottom first. */
    ghost function Contents(): (c: seq<int>)
      reads this, datos
      requires Valid()
      ensures |c| == tope + 1 <= capacidad
    {
      datos[..tope + 1]
    }

    constructor (cap: int)
      requires cap >= 0
      ensures Valid() && fresh(datos)
      ensures capacidad == cap && Contents() == []
    {
      capacidad := cap;
      datos := new int[cap];
      tope := -1;
    }

    function Vacio(): (b: bool)
      reads this, datos
      requires Valid()
      ensures b <==> Contents() == []
    {
      tope == -1
    }

    function Lleno(): (b: bool)
      reads this, datos
      requires Valid()
      ensures b <==> |Contents()| == capacidad
    {
      tope >= capacidad - 1
    }

    method Apilar(valor: int)
      requires Valid()
      modifies this, datos
      ensures Valid()
      ensures Contents() == if |old(Contents())| == capacidad then old(Contents())
                            else old(Contents()) + [valor]
    {
      if !Lleno() {
        tope := tope + 1;
        datos[tope] := valor;
      }
    }

    method Desapilar() returns (val: int)
      requires Valid()
      modifies this
      ensures Valid()
      ensures old(Contents()) == [] ==> val == -1 && tope == old(tope)
      ensures old(Contents()) != [] ==>
                val == old(Contents())[|old(Contents())| - 1] &&
                Contents() == old(Contents())[..|old(Contents())| - 1]
    {
      if !Vacio() {
        val := datos[tope];
        tope := tope - 1;
        return;
      }
      val := -1;
    }

    method Limpiar()
      requires Valid()
      modifies this
      ensures Valid()
      ensures Contents() == []
    {
      tope := -1;
    }
  }

  /** One heap entry: a node id and its priority (the source's `float` priority is an int). */
  datatype NodoPrioridadGrande = NodoPrioridadGrande(id: int, prioridad: int)

  /** `j` is a child of `p` in the implicit binary tree (its parent is `(j - 1) / 2`). */
  predicate Hijo(p: int, j: int)
  {
    j == 2 * p + 1 || j == 2 * p + 2
  }

  lemma PadreDe(j: int)
    requires j > 0
    ensures Hijo((j - 1) / 2, j) && 0 <= (j - 1) / 2 < j
  {
  }

  /** Min-heap order: every entry's priority is at least its parent's. */
  ghost predicate EsMonticulo(s: seq<NodoPrioridadGrande>)
  {
    forall p, j :: 0 <= p < j < |s| && Hijo(p, j) ==> s[p].prioridad <= s[j].prioridad
  }

  /** In a min-heap the root has a minimal priority. */
  lemma {:induction false} RaizMinima(s: seq<NodoPrioridadGrande>, k: int)
    requires EsMonticulo(s) && 0 <= k < |s|
    ensures s[0].prioridad <= s[k].prioridad
    decreases k
  {
    if k > 0 {
      var p := (k - 1) / 2;
      PadreDe(k);
      RaizMinima(s, p);
      assert s[p].prioridad <= s[k].prioridad;
    }
  }

  /** Exchanging two positions of a sequence keeps its multiset. */
  lemma Intercambio<T>(s: seq<T>, i: int, j: int)
    requires 0 <= i < |s| && 0 <= j < |s|
    ensures multiset(s[i := s[j]][j := s[i]]) == multiset(s)
  {
    if i != j {
      var t := s[i := s[j]];
      assert multiset(t) == multiset(s) - multiset{s[i]} + multiset{s[j]};
      assert multiset(t[j := s[i]]) == multiset(t) - multiset{s[j]} + multiset{s[i]};
    }
  }

  /** Sift-up state: `a` is a heap except at the hole `i`, the inserted priority is at most
      every child of the hole, and the hole's parent is at most every child of the hole. */
  ghost predicate HuecoSubiendo(a: seq<NodoPrioridadGrande>, i: int, prio: int)
  {
    && 0 <= i < |a|
    && (forall p, j :: 0 <= p < j < |a| && Hijo(p, j) && j != i ==> a[p].prioridad <= a[j].prioridad)
    && (forall j :: i < j < |a| && Hijo(i, j) ==> prio <= a[j].prioridad)
    && (forall q, j :: 0 <= q < i < j < |a| && Hijo(q, i) && Hijo(i, j) ==> a[q].prioridad <= a[j].prioridad)
  }

  lemma SubidaPaso(a: seq<NodoPrioridadGrande>, i: int, p: int, prio: int)
    requires HuecoSubiendo(a, i, prio) && 0 <= p < i && Hijo(p, i) && prio < a[p].prioridad
    ensures HuecoSubiendo(a[i := a[p]], p, prio)
  {
    var b := a[i := a[p]];
    forall q, j | 0 <= q < j < |b| && Hijo(q, j) && j != p
      ensures b[q].prioridad <= b[j].prioridad
    {
      if q == i {
        assert b[q] == a[p];
      } else if j == i {
        assert q == p;
      }
    }
    forall j | p < j < |b| && Hijo(p, j)
      ensures prio <= b[j].prioridad
    {
      if j != i {
        assert a[p].prioridad <= a[j].prioridad;
      }
    }
    forall q, j | 0 <= q < p < j < |b| && Hijo(q, p) && Hijo(p, j)
      ensures b[q].prioridad <= b[j].prioridad
    {
      assert a[q].prioridad <= a[p].prioridad;
      if j != i {
        assert a[p].prioridad <= a[j].prioridad;
      }
    }
  }

  lemma SubidaFin(a: seq<NodoPrioridadGrande>, i: int, x: NodoPrioridadGrande)
    requires HuecoSubiendo(a, i, x.prioridad)
    requires i > 0 ==> a[(i - 1) / 2].prioridad <= x.prioridad
    ensures EsMonticulo(a[i := x])
  {
    var b := a[i := x];
    forall p, j | 0 <= p < j < |b| && Hijo(p, j)
      ensures b[p].prioridad <= b[j].prioridad
    {
      if j == i {
        assert p == (i - 1) / 2;
      }
    }
  }

  /** Sift-down state: `a` is a heap except for the edges out of the hole `i`, the hole's
      parent is at most every child of the hole and at most the moving priority `u`. */
  ghost predicate HuecoBajando(a: seq<NodoPrioridadGrande>, i: int, u: int)
  {
    && 0 <= i < |a|
    && (forall p, j :: 0 <= p < j < |a| && Hijo(p, j) && p != i ==> a[p].prioridad <= a[j].prioridad)
    && (forall q, j :: 0 <= q < i < j < |a| && Hijo(q, i) && Hijo(i, j) ==> a[q].prioridad <= a[j].prioridad)
    && (forall q :: 0 <= q < i && Hijo(q, i) ==> a[q].prioridad <= u)
  }

  /** `h` is a child of `i` whose priority is minimal among `i`'s children. */
  ghost predicate MenorHijo(a: seq<NodoPrioridadGrande>, i: int, h: int)
  {
    0 <= i < h < |a| && Hijo(i, h) &&
    a[h].prioridad <= a[2 * i + 1].prioridad &&
    (2 * i + 2 < |a| ==> a[h].prioridad <= a[2 * i + 2].prioridad)
  }

  lemma BajadaPaso(a: seq<NodoPrioridadGrande>, i: int, h: int, u: int)
    requires HuecoBajando(a, i, u) && MenorHijo(a, i, h) && a[h].prioridad < u
    ensures HuecoBajando(a[i := a[h]], h, u)
  {
    var b := a[i := a[h]];
    forall p, j | 0 <= p < j < |b| && Hijo(p, j) && p != h
      ensures b[p].prioridad <= b[j].prioridad
    {
      if p == i {
        assert b[p] == a[h];
      } else if j == i {
        assert a[p].prioridad <= a[h].prioridad;
      }
    }
    forall q, j | 0 <= q < h < j < |b| && Hijo(q, h) && Hijo(h, j)
      ensures b[q].prioridad <= b[j].prioridad
    {
      assert q == i;
      assert a[h].prioridad <= a[j].prioridad;
    }
  }

  lemma BajadaFin(a: seq<NodoPrioridadGrande>, i: int, x: NodoPrioridadGrande)
    requires HuecoBajando(a, i, x.prioridad)
    requires forall j :: i < j < |a| && Hijo(i, j) ==> x.prioridad <= a[j].prioridad
    ensures EsMonticulo(a[i := x])
  {
  }

  /** When the smaller child of `i` is not below `u`, no child of `i` is. */
  lemma HijosNoMenores(a: seq<NodoPrioridadGrande>, i: int, h: int, u: int)
    requires MenorHijo(a, i, h) && u <= a[h].prioridad
    ensures forall j :: i < j < |a| && Hijo(i, j) ==> u <= a[j].prioridad
  {
  }

  /** Swapping the hole value at `i` with the child at `h` moves the hole to `h`. */
  lemma Desplazar<T>(l: seq<T>, a: seq<T>, i: int, h: int, x: T)
    requires |l| == |a| && 0 <= i < |a| && 0 <= h < |a| && i != h && l == a[i := x]
    ensures l[i := l[h]][h := l[i]] == a[i := a[h]][h := x]
  {
  }

  /** Sift-up on a sequence: `x` enters at the hole `i` and every parent with a strictly
      larger priority moves down into the hole. */
  function Flotado(a: seq<NodoPrioridadGrande>, i: int, x: NodoPrioridadGrande): (r: seq<NodoPrioridadGrande>)
    requires 0 <= i < |a|
    ensures |r| == |a|
    decreases i
  {
    if i > 0 && x.prioridad < a[(i - 1) / 2].prioridad then
      Flotado(a[i := a[(i - 1) / 2]], (i - 1) / 2, x)
    else
      a[i := x]
  }

  /** Sift-up turns a heap with a hole into a heap holding the same entries plus `x`. */
  lemma {:induction false} FlotadoCorrecto(a: seq<NodoPrioridadGrande>, i: int, x: NodoPrioridadGrande)
    requires HuecoSubiendo(a, i, x.prioridad)
    ensures EsMonticulo(Flotado(a, i, x))
    ensures multiset(Flotado(a, i, x)) == multiset(a[i := x])
    decreases i
  {
    if i > 0 && x.prioridad < a[(i - 1) / 2].prioridad {
      var p := (i - 1) / 2;
      PadreDe(i);
      SubidaPaso(a, i, p, x.prioridad);
      FlotadoCorrecto(a[i := a[p]], p, x);
      Intercambio(a[i := x], i, p);
      Desplazar(a[i := x], a, i, p, x);
    } else {
      SubidaFin(a, i, x);
    }
  }

  /** The child of `i` that sift-down compares against: the right child only when it is
      strictly smaller than the left one. */
  function HijoElegido(a: seq<NodoPrioridadGrande>, i: int): (h: int)
    requires 0 <= i && 2 * i + 1 < |a|
    ensures MenorHijo(a, i, h)
  {
    if 2 * i + 2 < |a| && a[2 * i + 2].prioridad < a[2 * i + 1].prioridad then 2 * i + 2 else 2 * i + 1
  }

  /** Sift-down on a sequence: `x` enters at the hole `i` and the smaller child moves up
      into the hole while its priority is strictly below `x`'s. */
  function Hundido(a: seq<NodoPrioridadGrande>, i: int, x: NodoPrioridadGrande): (r: seq<NodoPrioridadGrande>)
    requires 0 <= i < |a|
    ensures |r| == |a|
    decreases |a| - i
  {
    if 2 * i + 1 >= |a| then a[i := x]
    else
      var h := HijoElegido(a, i);
      if x.prioridad <= a[h].prioridad then a[i := x] else Hundido(a[i := a[h]], h, x)
  }

  /** Sift-down turns a heap with a hole into a heap holding the same entries plus `x`. */
  lemma {:induction false} HundidoCorrecto(a: seq<NodoPrioridadGrande>, i: int, x: NodoPrioridadGrande)
    requires HuecoBajando(a, i, x.prioridad)
    ensures EsMonticulo(Hundido(a, i, x))
    ensures multiset(Hundido(a, i, x)) == multiset(a[i := x])
    decreases |a| - i
  {
    if 2 * i + 1 >= |a| {
      BajadaFin(a, i, x);
    } else {
      var h := HijoElegido(a, i);
      if x.prioridad <= a[h].prioridad {
        HijosNoMenores(a, i, h, x.prioridad);
        BajadaFin(a, i, x);
      } else {
        BajadaPaso(a, i, h, x.prioridad);
        HundidoCorrecto(a[i := a[h]], h, x);
        Intercambio(a[i := x], i, h);
        Desplazar(a[i := x], a, i, h, x);
      }
    }
  }

  /** Only the slots outside the hole matter to sift-up. */
  lemma FlotadoHueco(a: seq<NodoPrioridadGrande>, i: int, x: NodoPrioridadGrande, v: NodoPrioridadGrande)
    requires 0 <= i < |a|
    ensures Flotado(a[i := v], i, x) == Flotado(a, i, x)
  {
    if i > 0 && x.prioridad < a[(i - 1) / 2].prioridad {
      assert a[i := v][i := a[(i - 1) / 2]] == a[i := a[(i - 1) / 2]];
    } else {
      assert a[i := v][i := x] == a[i := x];
    }
  }

  /** The heap `s` after `insertar(x.id, x.prioridad)` when it is not full. */
  function Insertado(s: seq<NodoPrioridadGrande>, x: NodoPrioridadGrande): (r: seq<NodoPrioridadGrande>)
    ensures |r| == |s| + 1
  {
    Flotado(s + [x], |s|, x)
  }

  lemma InsertadoCorrecto(s: seq<NodoPrioridadGrande>, x: NodoPrioridadGrande)
    requires EsMonticulo(s)
    ensures EsMonticulo(Insertado(s, x))
    ensures multiset(Insertado(s, x)) == multiset(s) + multiset{x}
  {
    assert (s + [x])[|s| := x] == s + [x];
    FlotadoCorrecto(s + [x], |s|, x);
  }

  /** The heap `s` after `extraer_min` when it is not empty. */
  function SinRaiz(s: seq<NodoPrioridadGrande>): (r: seq<NodoPrioridadGrande>)
    requires |s| > 0
    ensures |r| == |s| - 1
  {
    if |s| == 1 then [] else Hundido(s[..|s| - 1], 0, s[|s| - 1])
  }

  /** `extraer_min` removes a root of minimal priority and keeps a heap. */
  lemma SinRaizCorrecto(s: seq<NodoPrioridadGrande>)
    requires EsMonticulo(s) && |s| > 0
    ensures EsMonticulo(SinRaiz(s))
    ensures multiset(SinRaiz(s)) == multiset(s) - multiset{s[0]}
    ensures forall o :: o in multiset(s) ==> s[0].prioridad <= o.prioridad
  {
    forall o | o in multiset(s)
      ensures s[0].prioridad <= o.prioridad
    {
      var k :| 0 <= k < |s| && s[k] == o;
      RaizMinima(s, k);
    }
    if |s| > 1 {
      QuitarRaiz(s);
      HundidoCorrecto(s[..|s| - 1], 0, s[|s| - 1]);
    }
  }

  /** Moving the last entry into the root slot removes exactly the root. */
  lemma QuitarRaiz<T>(s: seq<T>)
    requires |s| >= 2
    ensures multiset(s[..|s| - 1][0 := s[|s| - 1]]) == multiset(s) - multiset{s[0]}
  {
    var n := |s| - 1;
    assert s == [s[0]] + s[1..n] + [s[n]];
    assert s[..n][0 := s[n]] == [s[n]] + s[1..n];
  }

  /** Array-backed binary min-heap over `datos[0..cantidad)`.  There is no decrease-key:
      the same id may be present several times with different priorities. */
  class ColaPrioridadGrande {
    const datos: array<NodoPrioridadGrande>
    var cantidad: int
    const capacidad: int

    ghost predicate Valid()
      reads this, datos
    {
      datos.Length == capacidad && 0 <= cantidad <= capacidad && EsMonticulo(datos[..cantidad])
    }

    /** The stored entries, duplicates included. */
    ghost function Contents(): (c: multiset<NodoPrioridadGrande>)
      reads this, datos
      requires Valid()
    {
      multiset(datos[..cantidad])
    }

    constructor (cap: int)
      requires cap >= 0
      ensures Valid() && fresh(datos)
      ensures capacidad == cap && cantidad == 0 && Contents() == multiset{}
    {
      capacidad := cap;
      datos := new NodoPrioridadGrande[cap];
      cantidad := 0;
    }

    function Vacia(): (b: bool)
      reads this, datos
      requires Valid()
      ensures b <==> Contents() == multiset{}
    {
      cantidad == 0
    }

    function Llena(): (b: bool)
      reads this, datos
      requires Valid()
      ensures b <==> |Contents()| == capacidad
    {
      cantidad >= capacidad
    }

    /** Sift-up insertion: the hole starts at the new last slot. */
    method Insertar(id: int, prioridad: int)
      requires Valid()
      modifies this, datos
      ensures Valid()
      ensures cantidad == if old(cantidad) >= capacidad then old(cantidad) else old(cantidad) + 1
      ensures old(cantidad) < capacidad ==>
                datos[..cantidad] == Insertado(old(datos[..cantidad]), NodoPrioridadGrande(id, prioridad))
      ensures Contents() == if old(cantidad) >= capacidad then old(Contents())
                            else old(Contents()) + multiset{NodoPrioridadGrande(id, prioridad)}
    {
      if Llena() {
        return;
      }
      ghost var x := NodoPrioridadGrande(id, prioridad);
      ghost var original := datos[..cantidad];
      var i := cantidad;
      cantidad := cantidad + 1;
      ghost var inicial := datos[..cantidad];
      assert inicial[i := x] == original + [x];
      Subir(datos, i, NodoPrioridadGrande(id, prioridad));
      FlotadoHueco(inicial, i, x, x);
      InsertadoCorrecto(original, x);
    }

    /** Removes the root: the last entry moves into the hole at the root and sinks.
        `e` is the removed entry. */
    method ExtraerMin() returns (id: int, ghost e: NodoPrioridadGrande)
      requires Valid()
      modifies this, datos
      ensures Valid()
      ensures old(cantidad) == 0 ==> id == -1 && cantidad == 0
      ensures old(cantidad) > 0 ==>
                && cantidad == old(cantidad) - 1
                && datos[..cantidad] == SinRaiz(old(datos[..cantidad]))
                && e == old(datos[0]) && id == e.id
      ensures old(cantidad) > 0 ==>
                && e in old(Contents())
                && (forall o :: o in old(Contents()) ==> e.prioridad <= o.prioridad)
                && Contents() == old(Contents()) - multiset{e}
    {
      e := NodoPrioridadGrande(-1, 0);
      if Vacia() {
        return -1, e;
      }
      ghost var original := datos[..cantidad];
      e := datos[0];
      id := datos[0].id;
      cantidad := cantidad - 1;
      var ultimo := datos[cantidad];
      assert original[..cantidad] == datos[..cantidad];
      Hundir(datos, cantidad, ultimo);
      SinRaizCorrecto(original);
    }

    method Limpiar()
      requires Valid()
      modifies this
      ensures Valid()
      ensures Contents() == multiset{}
    {
      cantidad := 0;
    }
  }

  /** The sift-up loop of `insertar` on `datos[0..i]`, with `x` entering at the hole `i`. */
  method Subir(datos: array<NodoPrioridadGrande>, i0: int, x: NodoPrioridadGrande)
    requires 0 <= i0 < datos.Length
    modifies datos
    ensures datos[..i0 + 1] == Flotado(old(datos[..i0 + 1]), i0, x)
  {
    ghost var n := i0 + 1;
    ghost var inicial := datos[..n];
    var i := i0;
    while i > 0 && x.prioridad < datos[(i - 1) / 2].prioridad
      invariant 0 <= i < n
      invariant Flotado(datos[..n], i, x) == Flotado(inicial, i0, x)
      decreases i
    {
      var p := (i - 1) / 2;
      ghost var a := datos[..n];
      datos[i] := datos[p];
      assert datos[..n] == a[i := a[p]];
      i := p;
    }
    ghost var a := datos[..n];
    datos[i] := x;
    assert datos[..n] == a[i := x];
  }

  /** The sift-down loop of `extraer_min` on `datos[0..n)`, with `x` entering at the hole 0;
      when `n` is 0 only slot 0 is written. */
  method Hundir(datos: array<NodoPrioridadGrande>, n: int, x: NodoPrioridadGrande)
    requires 0 <= n < datos.Length
    modifies datos
    ensures n > 0 ==> datos[..n] == Hundido(old(datos[..n]), 0, x)
  {
    ghost var inicial := datos[..n];
    var i := 0;
    while 2 * i + 1 < n
      invariant 0 <= i && (n == 0 ==> i == 0)
      invariant n > 0 ==> i < n && Hundido(datos[..n], i, x) == Hundido(inicial, 0, x)
      decreases n - i
    {
      ghost var a := datos[..n];
      var hijo := 2 * i + 1;
      if hijo + 1 < n && datos[hijo + 1].prioridad < datos[hijo].prioridad {
        hijo := hijo + 1;
      }
      assert hijo == HijoElegido(a, i);
      if x.prioridad <= datos[hijo].prioridad {
        assert Hundido(a, i, x) == a[i := x];
        break;
      }
      datos[i] := datos[hijo];
      assert datos[..n] == a[i := a[hijo]];
      i := hijo;
    }
    ghost var a := datos[..n];
    datos[i] := x;
    if n > 0 {
      assert Hundido(a, i, x) == a[i := x];
      assert datos[..n] == a[i := x];
    }
  }

  /** Inserting every entry and then extracting until the heap is empty yields the ids in
      order of non-decreasing priority, each entry exactly once. */
  method OrdenPorPrioridad(entradas: seq<NodoPrioridadGrande>)
      returns (ids: seq<int>, ghost orden: seq<NodoPrioridadGrande>)
    ensures |ids| == |orden| == |entradas|
    ensures forall k :: 0 <= k < |orden| ==> ids[k] == orden[k].id
    ensures multiset(orden) == multiset(entradas)
    ensures Ordenada(orden)
  {
    var cola := Cargar(entradas);
    ids, orden := Vaciar(cola);
    assert |multiset(orden)| == |entradas|;
  }

  /** A heap of capacity `|entradas|` holding every entry. */
  method Cargar(entradas: seq<NodoPrioridadGrande>) returns (cola: ColaPrioridadGrande)
    ensures fresh(cola) && fresh(cola.datos) && cola.Valid()
    ensures cola.Contents() == multiset(entradas)
  {
    cola := new ColaPrioridadGrande(|entradas|);
    var k := 0;
    while k < |entradas|
      invariant 0 <= k <= |entradas| && cola.Valid()
      invariant cola.capacidad == |entradas| && cola.cantidad == k
      invariant cola.Contents() == multiset(entradas[..k])
      invariant fresh(cola) && fresh(cola.datos)
    {
      Prefijo(entradas, k);
      cola.Insertar(entradas[k].id, entradas[k].prioridad);
      k := k + 1;
    }
    assert entradas[..k] == entradas;
  }

  lemma Prefijo<T>(s: seq<T>, k: int)
    requires 0 <= k < |s|
    ensures multiset(s[..k + 1]) == multiset(s[..k]) + multiset{s[k]}
  {
    assert s[..k + 1] == s[..k] + [s[k]];
  }

  /** Entries in order of non-decreasing priority. */
  ghost predicate Ordenada(s: seq<NodoPrioridadGrande>)
  {
    forall k, l :: 0 <= k < l < |s| ==> s[k].prioridad <= s[l].prioridad
  }

  lemma AgregarOrdenada(s: seq<NodoPrioridadGrande>, e: NodoPrioridadGrande)
    requires Ordenada(s) && (s != [] ==> s[|s| - 1].prioridad <= e.prioridad)
    ensures Ordenada(s + [e])
  {
  }

  /** `ids` lists the ids of `orden`, position by position. */
  ghost predicate IdsDe(ids: seq<int>, orden: seq<NodoPrioridadGrande>)
  {
    |ids| == |orden| && forall k :: 0 <= k < |orden| ==> ids[k] == orden[k].id
  }

  lemma AgregarId(ids: seq<int>, orden: seq<NodoPrioridadGrande>, id: int, e: NodoPrioridadGrande)
    requires IdsDe(ids, orden) && id == e.id
    ensures IdsDe(ids + [id], orden + [e])
  {
  }

  /** Loop state of `Vaciar`: `orden` was removed from `total`, leaving `resto`, in order,
      and nothing left is below the last removed entry. */
  ghost predicate Extraidos(orden: seq<NodoPrioridadGrande>, resto: multiset<NodoPrioridadGrande>,
                            total: multiset<NodoPrioridadGrande>)
  {
    && multiset(orden) + resto == total
    && Ordenada(orden)
    && (orden != [] ==> forall o :: o in resto ==> orden[|orden| - 1].prioridad <= o.prioridad)
  }

  lemma PasoExtraccion(orden: seq<NodoPrioridadGrande>, antes: multiset<NodoPrioridadGrande>,
                       e: NodoPrioridadGrande, total: multiset<NodoPrioridadGrande>)
    requires Extraidos(orden, antes, total)
    requires e in antes && forall o :: o in antes ==> e.prioridad <= o.prioridad
    ensures Extraidos(orden + [e], antes - multiset{e}, total)
  {
    assert multiset(orden + [e]) == multiset(orden) + multiset{e};
    Traspaso(multiset(orden), antes, e);
    AgregarOrdenada(orden, e);
  }

  /** Extracts until the heap is empty; `orden` lists the removed entries. */
  method Vaciar(cola: ColaPrioridadGrande) returns (ids: seq<int>, ghost orden: seq<NodoPrioridadGrande>)
    requires cola.Valid()
    modifies cola, cola.datos
    ensures IdsDe(ids, orden)
    ensures multiset(orden) == old(cola.Contents())
    ensures Ordenada(orden)
  {
    ids := [];
    orden := [];
    ghost var total := cola.Contents();
    while cola.cantidad > 0
      invariant cola.Valid() && IdsDe(ids, orden)
      invariant Extraidos(orden, cola.Contents(), total)
      decreases cola.cantidad
    {
      ghost var antes := cola.Contents();
      var id;
      ghost var e;
      id, e := cola.ExtraerMin();
      PasoExtraccion(orden, antes, e, total);
      AgregarId(ids, orden, id, e);
      ids := ids + [id];
      orden := orden + [e];
    }
  }

  /** Moving one occurrence of `e` from `a` to `m` keeps the combined multiset. */
  lemma Traspaso<T>(m: multiset<T>, a: multiset<T>, e: T)
    requires e in a
    ensures (m + multiset{e}) + (a - multiset{e}) == m + a
  {
  }

  /** A block handed out by the pool: its first index, or none when the pool is full. */
  datatype Bloque = Nulo | Bloque(inicio: int)

  /** `s` with the flags of `[desde, desde + tam)` set to `v`. */
  function Marcar(s: seq<bool>, desde: int, tam: int, v: bool): (r: seq<bool>)
    requires 0 <= desde && 0 <= tam && desde + tam <= |s|
    ensures |r| == |s|
    ensures forall k :: 0 <= k < |s| ==> r[k] == if desde <= k < desde + tam then v else s[k]
  {
    s[..desde] + seq(tam, _ => v) + s[desde + tam..]
  }

  /** Bump-allocating pool: blocks are handed out from `siguiente_libre` upwards, and only the
      most recent block can be given back to the free space.  `usado` records which slots
      belong to a block handed out and not yet freed. */
  class MemoryPool<T(0)> {
    const pool: array<T>
    const usado: array<bool>
    const capacidad: int
    var siguiente_libre: int

    ghost predicate Valid()
      reads this
    {
      pool.Length == capacidad && usado.Length == capacidad &&
      0 <= siguiente_libre <= capacidad
    }

    constructor (cap: int)
      requires cap >= 0
      ensures Valid() && fresh(pool) && fresh(usado)
      ensures capacidad == cap && siguiente_libre == 0
      ensures forall k :: 0 <= k < cap ==> !usado[k]
    {
      capacidad := cap;
      siguiente_libre := 0;
      pool := new T[cap];
      usado := new bool[cap](_ => false);
    }

    method ObtenerArray(tamano: int) returns (ptr: Bloque)
      requires Valid() && tamano >= 0
      modifies this, usado
      ensures Valid()
      ensures old(siguiente_libre) + tamano <= capacidad ==>
                && ptr == Bloque(old(siguiente_libre))
                && siguiente_libre == old(siguiente_libre) + tamano
                && usado[..] == Marcar(old(usado[..]), old(siguiente_libre), tamano, true)
      ensures old(siguiente_libre) + tamano > capacidad ==>
                ptr == Nulo && siguiente_libre == old(siguiente_libre) && usado[..] == old(usado[..])
    {
      if siguiente_libre + tamano <= capacidad {
        ptr := Bloque(siguiente_libre);
        var i := 0;
        while i < tamano
          invariant 0 <= i <= tamano
          invariant usado[..] == Marcar(old(usado[..]), siguiente_libre, i, true)
          modifies usado
        {
          usado[siguiente_libre + i] := true;
          i := i + 1;
        }
        siguiente_libre := siguiente_libre + tamano;
        return;
      }
      ptr := Nulo;
    }

    method LiberarArray(ptr: Bloque, tamano: int)
      requires Valid() && ptr.Bloque? && 0 <= ptr.inicio && 0 <= tamano
      requires ptr.inicio + tamano <= capacidad
      modifies this, usado
      ensures Valid()
      ensures usado[..] == Marcar(old(usado[..]), ptr.inicio, tamano, false)
      ensures siguiente_libre == if ptr.inicio + tamano == old(siguiente_libre) then ptr.inicio
                                 else old(siguiente_libre)
    {
      var inicio := ptr.inicio;
      var i := 0;
      while i < tamano
        invariant 0 <= i <= tamano
        invariant usado[..] == Marcar(old(usado[..]), inicio, i, false)
        modifies usado
      {
        usado[inicio + i] := false;
        i := i + 1;
      }
      if inicio + tamano == siguiente_libre {
        siguiente_libre := inicio;
      }
    }

    method Reset()
      requires Valid()
      modifies this, usado
      ensures Valid()
      ensures siguiente_libre == 0 && forall k :: 0 <= k < capacidad ==> !usado[k]
    {
      siguiente_libre := 0;
      var i := 0;
      while i < capacidad
        invariant 0 <= i <= capacidad
        invariant forall k :: 0 <= k < i ==> !usado[k]
        modifies usado
      {
        usado[i] := false;
        i := i + 1;
      }
    }
  }
}
