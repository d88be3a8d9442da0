/** The small-graph circular FIFO queue `ColaInt`: a fixed buffer of `TAM_MAX` ints in which
    one slot always stays free, so at most `TAM_MAX - 1` items are ever queued. */
module Estructuras {
  import EstructurasGrandes

  const TAM_MAX: int := 10000

  class ColaInt {
    const datos: array<int>
    var frente: int
    var fin: int

    ghost predicate Valid()
      reads this
    {
      datos.Length == TAM_MAX && 0 <= frente < TAM_MAX && 0 <= fin < TAM_MAX
    }

    /** The queued items, oldest first. */
    ghost function Contents(): (c: seq<int>)
      reads this, datos
      requires Valid()
      ensures |c| == if frente <= fin then fin - frente else TAM_MAX - frente + fin
      ensures |c| < TAM_MAX
    {
      if frente <= fin then datos[frente..fin] else datos[frente..] + datos[..fin]
    }

    /** The number of queued items is `(fin - frente) mod TAM_MAX`. */
    lemma Cuenta()
      requires Valid()
      ensures |Contents()| == (fin - frente) % TAM_MAX
    {
      EstructurasGrandes.Ocupados(frente, fin, TAM_MAX);
    }

    constructor ()
      ensures Valid() && fresh(datos)
      ensures frente == 0 && fin == 0 && Contents() == []
    {
      datos := new int[TAM_MAX];
      frente := 0;
      fin := 0;
    }

    function Vacia(): (b: bool)
      reads this, datos
      requires Valid()
      ensures b <==> Contents() == []
    {
      frente == fin
    }

    function Llena(): (b: bool)
      reads this, datos
      requires Valid()
      ensures b <==> |Contents()| == TAM_MAX - 1
    {
      EstructurasGrandes.Siguiente(fin, TAM_MAX);
      (fin + 1) % TAM_MAX == frente
    }

    /** Appends `valor`, unless the queue already holds `TAM_MAX - 1` items. */
    method Encolar(valor: int)
      requires Valid()
      modifies this, datos
      ensures Valid()
      ensures Contents() == if |old(Contents())| == TAM_MAX - 1 then old(Contents())
                            else old(Contents()) + [valor]
    {
      if !Llena() {
        ghost var antes := Contents();
        datos[fin] := valor;
        if frente <= fin {
          assert antes == datos[frente..fin];
        } else {
          assert antes == datos[frente..] + datos[..fin];
        }
        EstructurasGrandes.Siguiente(fin, TAM_MAX);
        fin := (fin + 1) % TAM_MAX;
        if fin == 0 {
          assert datos[..fin] == [];
        }
      }
    }

    /** Removes and returns the oldest item; on an empty queue returns -1 and changes nothing. */
    method Desencolar() returns (val: int)
      requires Valid()
      modifies this
      ensures Valid()
      ensures old(Contents()) == [] ==> val == -1 && frente == old(frente) && fin == old(fin)
      ensures old(Contents()) != [] ==> val == old(Contents())[0] && Contents() == old(Contents())[1..]
    {
      if !Vacia() {
        val := datos[frente];
        EstructurasGrandes.Siguiente(frente, TAM_MAX);
        frente := (frente + 1) % TAM_MAX;
        return;
      }
      val := -1;
    }
  }
}
