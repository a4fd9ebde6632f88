/** The `Persona` class: a record with a birthday, a name setter, two age
    predicates and a class-wide count of constructions, here passed explicitly. */
module Personas {

  datatype Persona = Persona(nombre: string, edad: int, identificacion: string, estado: string)

  /** A freshly built person together with the counter after the construction. */
  datatype Construida = Construida(persona: Persona, contador: nat)

  /** The constructor: stores the three values, starts "activo" and bumps the
      counter by one. */
  function NuevaPersona(contador: nat, nombre: string, edad: int, identificacion: string): (r: Construida)
    ensures r.contador == contador + 1
    ensures r.persona.nombre == nombre && r.persona.edad == edad
    ensures r.persona.identificacion == identificacion
    ensures r.persona.estado == "activo"
  {
    Construida(Persona(nombre, edad, identificacion, "activo"), contador + 1)
  }

  /** The class method reading the counter. */
  function TotalPersonas(contador: nat): nat
  {
    contador
  }

  /** The constructor arguments of one person. */
  datatype Datos = Datos(nombre: string, edad: int, identificacion: string)

  /** Builds one person per entry of `datos`, in order, threading the counter. */
  function ConstruirTodas(contador: nat, datos: seq<Datos>): (r: (seq<Persona>, nat))
    ensures |r.0| == |datos|
    ensures r.1 == contador + |datos|
    ensures forall i :: 0 <= i < |datos| ==>
      r.0[i] == Persona(datos[i].nombre, datos[i].edad, datos[i].identificacion, "activo")
    decreases |datos|
  {
    if |datos| == 0 then ([], contador)
    else
      var d := datos[|datos| - 1];
      var previas := ConstruirTodas(contador, datos[..|datos| - 1]);
      var ultima := NuevaPersona(previas.1, d.nombre, d.edad, d.identificacion);
      (previas.0 + [ultima.persona], ultima.contador)
  }

  /** Starting from the class's initial zero, the reported total is the number of
      constructions performed. */
  lemma TotalCuentaConstrucciones(datos: seq<Datos>)
    ensures TotalPersonas(ConstruirTodas(0, datos).1) == |datos|
  {
  }

  /** `cumplir_años`: one year older, nothing else changes. */
  function CumplirAnios(p: Persona): (r: Persona)
    ensures r.edad == p.edad + 1
    ensures r.nombre == p.nombre && r.identificacion == p.identificacion && r.estado == p.estado
  {
    p.(edad := p.edad + 1)
  }

  /** Adult from 18 on. */
  predicate EsMayorDeEdad(p: Persona)
  {
    p.edad >= 18
  }

  /** The static check that an age is plausible: 0 to 120 inclusive. */
  predicate ValidarEdad(edad: int)
  {
    0 <= edad <= 120
  }

  /** The name setter: only the name changes. */
  function ActualizarNombre(p: Persona, nuevo: string): (r: Persona)
    ensures r.nombre == nuevo
    ensures r.edad == p.edad && r.identificacion == p.identificacion && r.estado == p.estado
  {
    p.(nombre := nuevo)
  }

  /** `n` birthdays in a row. */
  function Cumpleanos(p: Persona, n: nat): Persona
    decreases n
  {
    if n == 0 then p else CumplirAnios(Cumpleanos(p, n - 1))
  }

  /** After `n` birthdays a person is `n` years older and otherwise the same. */
  lemma {:induction false} CumpleanosSuman(p: Persona, n: nat)
    ensures Cumpleanos(p, n) == p.(edad := p.edad + n)
    decreases n
  {
    if n > 0 {
      CumpleanosSuman(p, n - 1);
    }
  }

  /** A person becomes adult exactly at the birthday that brings them to 18, and
      stays adult afterwards. */
  lemma MayoriaTrasCumpleanos(p: Persona, n: nat)
    ensures EsMayorDeEdad(Cumpleanos(p, n)) <==> p.edad + n >= 18
    ensures EsMayorDeEdad(p) ==> EsMayorDeEdad(Cumpleanos(p, n))
  {
    CumpleanosSuman(p, n);
  }

  /** An age that validates keeps validating through `n` birthdays exactly while
      it stays at most 120. */
  lemma EdadValidaTrasCumpleanos(p: Persona, n: nat)
    requires ValidarEdad(p.edad)
    ensures ValidarEdad(Cumpleanos(p, n).edad) <==> p.edad + n <= 120
  {
    CumpleanosSuman(p, n);
  }
}
