/** Students, modules and courses. A student keeps the names of the courses they
    joined and one grade per course; a course owns its modules, refers to its
    students, and moves through three states. Students are objects compared by
    identity, so a course refers to them by position in `escuela`, the sequence of
    every student object. */
module Cursos {
  import opened Options
  import opened Sums

  /** One entry of a student's grade dictionary. */
  datatype Nota = Nota(curso: string, valor: real)

  datatype Estudiante = Estudiante(
    nombre: string,
    codigo: string,
    correo: string,
    cursos: seq<string>,
    notas: seq<Nota>)

  predicate SinRepetidos<T(==)>(s: seq<T>)
  {
    forall i, j :: 0 <= i < j < |s| ==> s[i] != s[j]
  }

  /** The grade entries form a dictionary: no course appears twice. */
  predicate ClavesUnicas(notas: seq<Nota>)
  {
    forall i, j :: 0 <= i < j < |notas| ==> notas[i].curso != notas[j].curso
  }

  /** Every stored grade lies in [0, 5]. */
  predicate NotasEnRango(notas: seq<Nota>)
  {
    forall i :: 0 <= i < |notas| ==> 0.0 <= notas[i].valor <= 5.0
  }

  /** The constructor: no courses and no grades yet. */
  function NuevoEstudiante(nombre: string, codigo: string, correo: string): (r: Estudiante)
    ensures r.nombre == nombre && r.codigo == codigo && r.correo == correo
    ensures |r.cursos| == 0 && |r.notas| == 0
  {
    Estudiante(nombre, codigo, correo, [], [])
  }

  /** `inscribir_curso`: appends the course name unless it is already listed. */
  function InscribirCurso(e: Estudiante, curso: string): (r: Estudiante)
    ensures curso in r.cursos
    ensures curso in e.cursos ==> r == e
    ensures curso !in e.cursos ==> r == e.(cursos := e.cursos + [curso])
    ensures SinRepetidos(e.cursos) ==> SinRepetidos(r.cursos)
  {
    if curso !in e.cursos then e.(cursos := e.cursos + [curso]) else e
  }

  /** Position of the entry for `curso` in the grade dictionary. */
  function PosicionNota(notas: seq<Nota>, curso: string): (r: Option<nat>)
    ensures r.Some? ==> r.value < |notas| && notas[r.value].curso == curso
    ensures r.None? <==> forall i :: 0 <= i < |notas| ==> notas[i].curso != curso
    decreases |notas|
  {
    if |notas| == 0 then None
    else if notas[|notas| - 1].curso == curso then Some(|notas| - 1)
    else PosicionNota(notas[..|notas| - 1], curso)
  }

  /** The grade stored for `curso`, if any: the dictionary lookup. */
  function NotaDe(notas: seq<Nota>, curso: string): (r: Option<real>)
    ensures r.None? <==> forall i :: 0 <= i < |notas| ==> notas[i].curso != curso
    ensures r.Some? ==> exists i :: 0 <= i < |notas| && notas[i] == Nota(curso, r.value)
  {
    match PosicionNota(notas, curso)
    case None => None
    case Some(i) => Some(notas[i].valor)
  }

  /** `notas[curso] = valor` on an insertion-ordered dictionary: an existing
      entry is overwritten in place, a new one goes at the end. */
  function Guardar(notas: seq<Nota>, curso: string, valor: real): (r: seq<Nota>)
    requires ClavesUnicas(notas)
    ensures ClavesUnicas(r)
    ensures NotaDe(r, curso) == Some(valor)
    ensures forall c :: c != curso ==> NotaDe(r, c) == NotaDe(notas, c)
    ensures |r| == |notas| + (if NotaDe(notas, curso).None? then 1 else 0)
  {
    match PosicionNota(notas, curso)
    case None =>
      var r := notas + [Nota(curso, valor)];
      assert forall i :: 0 <= i < |notas| ==> r[i] == notas[i];
      r
    case Some(i) =>
      var r := notas[i := Nota(curso, valor)];
      assert forall j :: 0 <= j < |r| && j != i ==> r[j] == notas[j];
      assert ClavesUnicas(r);
      assert r[i].curso == curso;
      var p := PosicionNota(r, curso);
      assert p.Some? && r[p.value].curso == r[i].curso;
      assert p.value == i;
      r
  }

  /** `asignar_nota`: stores the grade only when it lies in [0, 5]. */
  function AsignarNota(e: Estudiante, curso: string, valor: real): (r: Estudiante)
    requires ClavesUnicas(e.notas)
    ensures !(0.0 <= valor <= 5.0) ==> r == e
    ensures 0.0 <= valor <= 5.0 ==> NotaDe(r.notas, curso) == Some(valor)
    ensures forall c :: c != curso ==> NotaDe(r.notas, c) == NotaDe(e.notas, c)
    ensures r.nombre == e.nombre && r.codigo == e.codigo && r.correo == e.correo && r.cursos == e.cursos
    ensures ClavesUnicas(r.notas)
    ensures NotasEnRango(e.notas) ==> NotasEnRango(r.notas)
  {
    if 0.0 <= valor <= 5.0 then
      var notas := Guardar(e.notas, curso, valor);
      assert NotasEnRango(e.notas) ==> NotasEnRango(notas) by {
        if NotasEnRango(e.notas) {
          forall i | 0 <= i < |notas| ensures 0.0 <= notas[i].valor <= 5.0 {
            if notas[i].curso != curso {
              assert NotaDe(notas, notas[i].curso) == NotaDe(e.notas, notas[i].curso);
            }
          }
        }
      }
      e.(notas := notas)
    else e
  }

  /** The value of one grade entry. */
  function Valor(n: Nota): real
  {
    n.valor
  }

  /** `obtener_promedio`: 0 without grades, otherwise their mean, which lies in
      [0, 5] while every stored grade does. */
  function Promedio(e: Estudiante): (r: real)
    ensures |e.notas| == 0 ==> r == 0.0
    ensures |e.notas| > 0 ==> r * |e.notas| as real == Sum(e.notas, Valor)
    ensures NotasEnRango(e.notas) ==> 0.0 <= r <= 5.0
  {
    if |e.notas| == 0 then 0.0
    else
      var n := |e.notas| as real;
      var s := Sum(e.notas, Valor);
      assert NotasEnRango(e.notas) ==> 0.0 <= s <= 5.0 * n by {
        if NotasEnRango(e.notas) {
          SumBounds(e.notas, Valor, 0.0, 5.0);
        }
      }
      s / n
  }

  /** Grading a course twice keeps only the second grade. */
  lemma {:induction false} SegundaNotaSobrescribe(e: Estudiante, curso: string, a: real, b: real)
    requires ClavesUnicas(e.notas)
    requires 0.0 <= b <= 5.0
    ensures AsignarNota(AsignarNota(e, curso, a), curso, b) == AsignarNota(e, curso, b)
  {
    if 0.0 <= a <= 5.0 {
      var n0 := e.notas;
      var n1 := AsignarNota(e, curso, a).notas;
      match PosicionNota(n0, curso) {
        case None =>
          assert n1 == n0 + [Nota(curso, a)];
          var p := PosicionNota(n1, curso);
          assert p == Some(|n0|);
        case Some(i) =>
          assert n1 == n0[i := Nota(curso, a)];
          var p := PosicionNota(n1, curso);
          assert p.Some? && n1[p.value].curso == curso;
          assert p == Some(i);
      }
    }
  }

  /** A module of a course: number, name, length in hours and topics. */
  datatype Modulo = Modulo(numero: int, nombre: string, horas: int, contenido: seq<string>)

  datatype Estado = Planificacion | EnCurso | Finalizado

  datatype Curso = Curso(
    nombre: string,
    codigo: string,
    profesor: string,
    semanas: int,
    estudiantes: seq<nat>,
    modulos: seq<Modulo>,
    estado: Estado)

  /** The constructor: no students, no modules, in planning. */
  function NuevoCurso(nombre: string, codigo: string, profesor: string, semanas: int): (r: Curso)
    ensures r.nombre == nombre && r.codigo == codigo && r.profesor == profesor && r.semanas == semanas
    ensures |r.estudiantes| == 0 && |r.modulos| == 0 && r.estado == Planificacion
  {
    Curso(nombre, codigo, profesor, semanas, [], [], Planificacion)
  }

  function Horas(m: Modulo): int
  {
    m.horas
  }

  /** `obtener_total_horas`: the hours of all modules added up. */
  function TotalHoras(c: Curso): (r: int)
    ensures |c.modulos| == 0 ==> r == 0
    ensures (forall i :: 0 <= i < |c.modulos| ==> c.modulos[i].horas >= 0) ==> r >= 0
  {
    assert (forall i :: 0 <= i < |c.modulos| ==> c.modulos[i].horas >= 0) ==> SumInt(c.modulos, Horas) >= 0 by {
      if forall i :: 0 <= i < |c.modulos| ==> c.modulos[i].horas >= 0 {
        SumIntNonNegative(c.modulos, Horas);
      }
    }
    SumInt(c.modulos, Horas)
  }

  /** `agregar_modulo`: appends exactly one new module, adding its hours to the
      course total. */
  function AgregarModulo(c: Curso, numero: int, nombre: string, horas: int, contenido: seq<string>): (r: Curso)
    ensures r.modulos == c.modulos + [Modulo(numero, nombre, horas, contenido)]
    ensures r == c.(modulos := r.modulos)
    ensures TotalHoras(r) == TotalHoras(c) + horas
  {
    var r := c.(modulos := c.modulos + [Modulo(numero, nombre, horas, contenido)]);
    assert r.modulos[..|r.modulos| - 1] == c.modulos;
    r
  }

  /** A course built by adding `ms` one by one, starting with no modules, lasts
      the hours of the modules added. */
  function AgregarTodos(c: Curso, ms: seq<Modulo>): Curso
    decreases |ms|
  {
    if |ms| == 0 then c
    else
      var m := ms[|ms| - 1];
      AgregarModulo(AgregarTodos(c, ms[..|ms| - 1]), m.numero, m.nombre, m.horas, m.contenido)
  }

  lemma {:induction false} TotalHorasAcumula(c: Curso, ms: seq<Modulo>)
    ensures AgregarTodos(c, ms).modulos == c.modulos + ms
    ensures TotalHoras(AgregarTodos(c, ms)) == TotalHoras(c) + SumInt(ms, Horas)
    decreases |ms|
  {
    if |ms| > 0 {
      var init := ms[..|ms| - 1];
      TotalHorasAcumula(c, init);
      assert ms == init + [ms[|ms| - 1]];
    }
  }

  /** The course and the student objects after an enrolment. */
  datatype Inscripcion = Inscripcion(curso: Curso, escuela: seq<Estudiante>)

  /** Every student the course lists exists and has the course among their own. */
  predicate Coherente(c: Curso, escuela: seq<Estudiante>)
  {
    forall k :: 0 <= k < |c.estudiantes| ==>
      c.estudiantes[k] < |escuela| && c.nombre in escuela[c.estudiantes[k]].cursos
  }

  /** `inscribir_estudiante`: a student not yet in the course is appended to it and
      records the course name; an enrolled one changes nothing. */
  function InscribirEstudiante(c: Curso, escuela: seq<Estudiante>, id: nat): (r: Inscripcion)
    requires id < |escuela|
    ensures id in r.curso.estudiantes
    ensures id in c.estudiantes ==> r == Inscripcion(c, escuela)
    ensures id !in c.estudiantes ==> r.curso == c.(estudiantes := c.estudiantes + [id])
    ensures |r.escuela| == |escuela|
    ensures id !in c.estudiantes ==> r.escuela[id] == InscribirCurso(escuela[id], c.nombre)
    ensures Coherente(c, escuela) ==> Coherente(r.curso, r.escuela) && c.nombre in r.escuela[id].cursos
    ensures forall j :: 0 <= j < |escuela| && j != id ==> r.escuela[j] == escuela[j]
    ensures r.escuela[id].notas == escuela[id].notas
    ensures SinRepetidos(c.estudiantes) ==> SinRepetidos(r.curso.estudiantes)
  {
    if id !in c.estudiantes then
      Inscripcion(c.(estudiantes := c.estudiantes + [id]), escuela[id := InscribirCurso(escuela[id], c.nombre)])
    else
      Inscripcion(c, escuela)
  }

  /** The position of the first occurrence of `x`: the scan `list.remove` does. */
  function Primera<T(==)>(s: seq<T>, x: T): (k: nat)
    requires x in s
    ensures k < |s| && s[k] == x && x !in s[..k]
    decreases |s|
  {
    if s[0] == x then 0
    else
      assert s == [s[0]] + s[1..];
      var k := Primera(s[1..], x) + 1;
      assert s[..k] == [s[0]] + s[1..][..k - 1];
      k
  }

  /** `list.remove`: the sequence with the first occurrence of `x` taken out and
      the rest in order; unchanged when `x` does not occur. */
  function QuitarPrimero<T(==)>(s: seq<T>, x: T): (r: seq<T>)
    ensures x in s ==> |r| == |s| - 1 && multiset(r) + multiset{x} == multiset(s)
    ensures x in s ==>
      exists k ::
        && 0 <= k < |s| && s[k] == x && x !in s[..k]
        && r == s[..k] + s[k + 1..]
    ensures x !in s ==> r == s
  {
    if x in s then
      var k := Primera(s, x);
      assert s == s[..k] + [x] + s[k + 1..];
      s[..k] + s[k + 1..]
    else s
  }

  /** `dar_de_baja_estudiante`: removes an enrolled student from the course. The
      student objects are not touched: the student keeps the course name and the
      grade. */
  function DarDeBaja(c: Curso, id: nat): (r: Curso)
    ensures r == c.(estudiantes := r.estudiantes)
    ensures id !in c.estudiantes ==> r == c
    ensures id in c.estudiantes ==> |r.estudiantes| == |c.estudiantes| - 1
    ensures id in c.estudiantes ==>
      exists k ::
        && 0 <= k < |c.estudiantes| && c.estudiantes[k] == id && id !in c.estudiantes[..k]
        && r.estudiantes == c.estudiantes[..k] + c.estudiantes[k + 1..]
    ensures multiset(r.estudiantes) + (if id in c.estudiantes then multiset{id} else multiset{}) == multiset(c.estudiantes)
    ensures SinRepetidos(c.estudiantes) ==> id !in r.estudiantes && SinRepetidos(r.estudiantes)
  {
    var r := c.(estudiantes := QuitarPrimero(c.estudiantes, id));
    assert SinRepetidos(c.estudiantes) ==> id !in r.estudiantes && SinRepetidos(r.estudiantes) by {
      if SinRepetidos(c.estudiantes) {
        SinRepetidosQuitar(c.estudiantes, id);
      }
    }
    r
  }

  lemma SinRepetidosQuitar<T>(s: seq<T>, x: T)
    requires SinRepetidos(s)
    ensures x !in QuitarPrimero(s, x) && SinRepetidos(QuitarPrimero(s, x))
  {
    if x in s {
      SinRepetidosSinPosicion(s, Primera(s, x));
    }
  }

  /** Taking one position out of a duplicate-free sequence leaves a
      duplicate-free sequence without that element. */
  lemma SinRepetidosSinPosicion<T>(s: seq<T>, k: nat)
    requires SinRepetidos(s) && k < |s|
    ensures s[k] !in s[..k] + s[k + 1..] && SinRepetidos(s[..k] + s[k + 1..])
  {
    var r := s[..k] + s[k + 1..];
    assert |r| == |s| - 1;
    forall i | 0 <= i < |r|
      ensures r[i] == if i < k then s[i] else s[i + 1]
    {
    }
    forall i, j | 0 <= i < j < |r|
      ensures r[i] != r[j]
    {
      var a := if i < k then i else i + 1;
      var b := if j < k then j else j + 1;
      assert r[i] == s[a] && r[j] == s[b] && a < b;
    }
    forall i | 0 <= i < |r|
      ensures r[i] != s[k]
    {
      var a := if i < k then i else i + 1;
      assert r[i] == s[a] && a != k;
    }
  }



  /** `iniciar_curso`: planning becomes running; any other state stays. */
  function IniciarCurso(c: Curso): (r: Curso)
    ensures r == c.(estado := r.estado)
    ensures r.estado != c.estado <==> c.estado == Planificacion
    ensures c.estado == Planificacion ==> r.estado == EnCurso
  {
    if c.estado == Planificacion then c.(estado := EnCurso) else c
  }

  /** `finalizar_curso`: running becomes finished; any other state stays. */
  function FinalizarCurso(c: Curso): (r: Curso)
    ensures r == c.(estado := r.estado)
    ensures r.estado != c.estado <==> c.estado == EnCurso
    ensures c.estado == EnCurso ==> r.estado == Finalizado
  {
    if c.estado == EnCurso then c.(estado := Finalizado) else c
  }

  /** The position of a state along planning, running, finished. */
  function Etapa(e: Estado): nat
  {
    match e
    case Planificacion => 0
    case EnCurso => 1
    case Finalizado => 2
  }

  datatype Llamada = Iniciar | Finalizar

  /** The course after the state calls `ls`, in order. */
  function Aplicar(c: Curso, ls: seq<Llamada>): Curso
    decreases |ls|
  {
    if |ls| == 0 then c
    else
      var c' := if ls[0] == Iniciar then IniciarCurso(c) else FinalizarCurso(c);
      Aplicar(c', ls[1..])
  }

  /** The state only moves forward, one step at a time; a finished course stays
      finished whatever is called. */
  lemma {:induction false} EstadoAvanza(c: Curso, ls: seq<Llamada>)
    ensures Etapa(Aplicar(c, ls).estado) >= Etapa(c.estado)
    ensures Etapa(Aplicar(c, ls).estado) <= Etapa(c.estado) + |ls|
    ensures c.estado == Finalizado ==> Aplicar(c, ls) == c
    ensures Aplicar(c, ls) == c.(estado := Aplicar(c, ls).estado)
    decreases |ls|
  {
    if |ls| > 0 {
      var c' := if ls[0] == Iniciar then IniciarCurso(c) else FinalizarCurso(c);
      EstadoAvanza(c', ls[1..]);
    }
  }

  /** A course reaches the finished state only through a start call followed,
      later, by a finish call. */
  lemma {:induction false} FinalizarRequiereIniciar(c: Curso, ls: seq<Llamada>)
    requires c.estado == Planificacion
    requires Aplicar(c, ls).estado == Finalizado
    ensures exists i, j :: 0 <= i < j < |ls| && ls[i] == Iniciar && ls[j] == Finalizar
    decreases |ls|
  {
    assert |ls| > 0;
    if ls[0] == Iniciar {
      var c' := IniciarCurso(c);
      EnCursoLlegaAFinalizado(c', ls[1..]);
      var j :| 0 <= j < |ls[1..]| && ls[1..][j] == Finalizar;
      assert ls[j + 1] == Finalizar;
    } else {
      FinalizarRequiereIniciar(FinalizarCurso(c), ls[1..]);
      var i, j :| 0 <= i < j < |ls[1..]| && ls[1..][i] == Iniciar && ls[1..][j] == Finalizar;
      assert ls[i + 1] == Iniciar && ls[j + 1] == Finalizar;
    }
  }

  lemma {:induction false} EnCursoLlegaAFinalizado(c: Curso, ls: seq<Llamada>)
    requires c.estado == EnCurso
    requires Aplicar(c, ls).estado == Finalizado
    ensures exists j :: 0 <= j < |ls| && ls[j] == Finalizar
    decreases |ls|
  {
    assert |ls| > 0;
    if ls[0] != Finalizar {
      EnCursoLlegaAFinalizado(IniciarCurso(c), ls[1..]);
      var j :| 0 <= j < |ls[1..]| && ls[1..][j] == Finalizar;
      assert ls[j + 1] == Finalizar;
    }
  }
}
