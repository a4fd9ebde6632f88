/** The payroll example: four kinds of employee, each with its own salary rule,
    the per-kind bookkeeping (benefits, hours, sales, projects), the class-wide
    employee counter (passed explicitly) and the payroll total. */
module Nomina {
  import opened Sums

  datatype Beneficio = Beneficio(nombre: string, valor: real)

  datatype Proyecto = Proyecto(nombre: string, pago: real, completado: bool)

  /** One variant per subclass, holding that subclass's own fields. */
  datatype Tipo =
    | TiempoCompleto(salarioMensual: real, beneficios: seq<Beneficio>)
    | PorHoras(tarifa: real, horasTrabajadas: real, horasExtra: real)
    | PorComision(salarioBase: real, porcentaje: real, ventas: seq<real>)
    | Freelance(proyectos: seq<Proyecto>)

  datatype Empleado = Empleado(
    nombre: string,
    identificacion: string,
    fechaIngreso: string,
    activo: bool,
    numero: nat,
    tipo: Tipo)

  function ValorBeneficio(b: Beneficio): real
  {
    b.valor
  }

  function Monto(venta: real): real
  {
    venta
  }

  /** What a project contributes to a freelancer's pay: its fee once completed. */
  function PagoCobrado(p: Proyecto): real
  {
    if p.completado then p.pago else 0.0
  }

  /** Every amount, rate and hour count the employee carries is non-negative. */
  predicate NoNegativo(e: Empleado)
  {
    match e.tipo
    case TiempoCompleto(mensual, bs) => mensual >= 0.0 && forall i :: 0 <= i < |bs| ==> bs[i].valor >= 0.0
    case PorHoras(tarifa, normales, extra) => tarifa >= 0.0 && normales >= 0.0 && extra >= 0.0
    case PorComision(base, porcentaje, ventas) =>
      base >= 0.0 && porcentaje >= 0.0 && forall i :: 0 <= i < |ventas| ==> ventas[i] >= 0.0
    case Freelance(proyectos) => forall i :: 0 <= i < |proyectos| ==> proyectos[i].pago >= 0.0
  }

  /** `calcular_salario`, dispatched on the kind of employee. With non-negative
      amounts the pay is non-negative; a commission earner never earns less than
      the base salary, and a freelancer never more than all fees together. */
  function Salario(e: Empleado): (r: real)
    ensures e.tipo.TiempoCompleto? ==> r == e.tipo.salarioMensual
    ensures NoNegativo(e) ==> r >= 0.0
    ensures NoNegativo(e) && e.tipo.PorComision? ==> r >= e.tipo.salarioBase
    ensures NoNegativo(e) && e.tipo.Freelance? ==> r <= Sum(e.tipo.proyectos, Pago)
  {
    match e.tipo
    case TiempoCompleto(mensual, _) => mensual
    case PorHoras(tarifa, normales, extra) =>
      assert NoNegativo(e) ==> normales * tarifa >= 0.0 && extra * tarifa >= 0.0;
      normales * tarifa + extra * tarifa * 1.5
    case PorComision(base, porcentaje, ventas) =>
      assert NoNegativo(e) ==> Sum(ventas, Monto) * porcentaje >= 0.0 by {
        if NoNegativo(e) {
          SumNonNegative(ventas, Monto);
        }
      }
      base + Sum(ventas, Monto) * porcentaje
    case Freelance(proyectos) =>
      assert NoNegativo(e) ==> Sum(proyectos, PagoCobrado) <= Sum(proyectos, Pago) by {
        if NoNegativo(e) {
          CobradoNoSuperaPagos(proyectos);
        }
      }
      assert NoNegativo(e) ==> Sum(proyectos, PagoCobrado) >= 0.0 by {
        if NoNegativo(e) {
          SumNonNegative(proyectos, PagoCobrado);
        }
      }
      Sum(proyectos, PagoCobrado)
  }

  /** The fee of a project, completed or not. */
  function Pago(p: Proyecto): real
  {
    p.pago
  }

  /** What completed projects pay never exceeds the fees of all projects. */
  lemma {:induction false} CobradoNoSuperaPagos(ps: seq<Proyecto>)
    requires forall i :: 0 <= i < |ps| ==> ps[i].pago >= 0.0
    ensures Sum(ps, PagoCobrado) <= Sum(ps, Pago)
    decreases |ps|
  {
    if |ps| > 0 {
      var ps' := ps[..|ps| - 1];
      assert forall i :: 0 <= i < |ps'| ==> ps'[i] == ps[i];
      CobradoNoSuperaPagos(ps');
    }
  }

  /** The subclass constructor arguments beyond the common three. */
  datatype Contrato =
    | ContratoTiempoCompleto(salarioMensual: real)
    | ContratoPorHoras(tarifa: real)
    | ContratoPorComision(salarioBase: real, porcentaje: real)
    | ContratoFreelance

  /** A new employee and the counter after the construction. */
  datatype Alta = Alta(empleado: Empleado, contador: nat)

  /** The constructors: the counter goes up by one and names the new employee,
      who starts active with empty bookkeeping. */
  function Contratar(contador: nat, nombre: string, identificacion: string, fecha: string, c: Contrato): (r: Alta)
    ensures r.contador == contador + 1 && r.empleado.numero == r.contador
    ensures r.empleado.activo
    ensures r.empleado.nombre == nombre && r.empleado.identificacion == identificacion
    ensures r.empleado.fechaIngreso == fecha
    ensures c.ContratoTiempoCompleto? ==>
      r.empleado.tipo == TiempoCompleto(c.salarioMensual, []) && Salario(r.empleado) == c.salarioMensual
    ensures c.ContratoPorHoras? ==> r.empleado.tipo == PorHoras(c.tarifa, 0.0, 0.0) && Salario(r.empleado) == 0.0
    ensures c.ContratoPorComision? ==>
      r.empleado.tipo == PorComision(c.salarioBase, c.porcentaje, []) && Salario(r.empleado) == c.salarioBase
    ensures c.ContratoFreelance? ==> r.empleado.tipo == Freelance([]) && Salario(r.empleado) == 0.0
  {
    var tipo := match c
      case ContratoTiempoCompleto(s) => TiempoCompleto(s, [])
      case ContratoPorHoras(t) => PorHoras(t, 0.0, 0.0)
      case ContratoPorComision(b, p) => PorComision(b, p, [])
      case ContratoFreelance => Freelance([]);
    Alta(Empleado(nombre, identificacion, fecha, true, contador + 1, tipo), contador + 1)
  }

  /** The arguments of one construction. */
  datatype Solicitud = Solicitud(nombre: string, identificacion: string, fecha: string, contrato: Contrato)

  /** Builds one employee per request, in order, threading the counter: the
      numbers handed out are consecutive, hence distinct and increasing. */
  function ContratarTodos(contador: nat, ss: seq<Solicitud>): (r: (seq<Empleado>, nat))
    ensures |r.0| == |ss| && r.1 == contador + |ss|
    ensures forall i :: 0 <= i < |ss| ==> r.0[i].numero == contador + i + 1 && r.0[i].activo
    ensures forall i, j :: 0 <= i < j < |ss| ==> r.0[i].numero < r.0[j].numero
    decreases |ss|
  {
    if |ss| == 0 then ([], contador)
    else
      var s := ss[|ss| - 1];
      var previos := ContratarTodos(contador, ss[..|ss| - 1]);
      var alta := Contratar(previos.1, s.nombre, s.identificacion, s.fecha, s.contrato);
      (previos.0 + [alta.empleado], alta.contador)
  }

  /** `calcular_salario_con_beneficios`: the monthly salary plus every benefit. */
  function SalarioConBeneficios(e: Empleado): (r: real)
    requires e.tipo.TiempoCompleto?
    ensures r == e.tipo.salarioMensual + Sum(e.tipo.beneficios, ValorBeneficio)
    ensures |e.tipo.beneficios| == 0 ==> r == e.tipo.salarioMensual
    ensures NoNegativo(e) ==> r >= Salario(e) >= 0.0
  {
    assert NoNegativo(e) ==> Sum(e.tipo.beneficios, ValorBeneficio) >= 0.0 by {
      if NoNegativo(e) {
        SumNonNegative(e.tipo.beneficios, ValorBeneficio);
      }
    }
    Salario(e) + Sum(e.tipo.beneficios, ValorBeneficio)
  }

  /** `agregar_beneficio`: appends one benefit; the plain salary stays, the salary
      with benefits grows by the benefit's value. */
  function AgregarBeneficio(e: Empleado, nombre: string, valor: real): (r: Empleado)
    requires e.tipo.TiempoCompleto?
    ensures r.tipo.TiempoCompleto? && r.tipo.beneficios == e.tipo.beneficios + [Beneficio(nombre, valor)]
    ensures r == e.(tipo := r.tipo) && r.tipo.salarioMensual == e.tipo.salarioMensual
    ensures Salario(r) == Salario(e)
    ensures SalarioConBeneficios(r) == SalarioConBeneficios(e) + valor
  {
    var bs := e.tipo.beneficios + [Beneficio(nombre, valor)];
    assert bs[..|bs| - 1] == e.tipo.beneficios;
    e.(tipo := e.tipo.(beneficios := bs))
  }

  /** `registrar_horas`: extra hours go to the overtime counter, others to the
      regular one; pay grows by the hours at the rate, overtime at 1.5 times it.
      The source's default `son_extra=False` is the call with `sonExtra` false. */
  function RegistrarHoras(e: Empleado, horas: real, sonExtra: bool): (r: Empleado)
    requires e.tipo.PorHoras?
    ensures r.tipo.PorHoras? && r == e.(tipo := r.tipo) && r.tipo.tarifa == e.tipo.tarifa
    ensures sonExtra ==> r.tipo.horasExtra == e.tipo.horasExtra + horas && r.tipo.horasTrabajadas == e.tipo.horasTrabajadas
    ensures !sonExtra ==> r.tipo.horasTrabajadas == e.tipo.horasTrabajadas + horas && r.tipo.horasExtra == e.tipo.horasExtra
    ensures Salario(r) == Salario(e) + horas * e.tipo.tarifa * (if sonExtra then 1.5 else 1.0)
  {
    if sonExtra then e.(tipo := e.tipo.(horasExtra := e.tipo.horasExtra + horas))
    else e.(tipo := e.tipo.(horasTrabajadas := e.tipo.horasTrabajadas + horas))
  }

  /** `resetear_horas`: both counters back to zero, and with them the pay. */
  function ResetearHoras(e: Empleado): (r: Empleado)
    requires e.tipo.PorHoras?
    ensures r.tipo.PorHoras? && r == e.(tipo := r.tipo) && r.tipo.tarifa == e.tipo.tarifa
    ensures r.tipo.horasTrabajadas == 0.0 && r.tipo.horasExtra == 0.0
    ensures Salario(r) == 0.0
  {
    e.(tipo := e.tipo.(horasTrabajadas := 0.0, horasExtra := 0.0))
  }

  /** From reset counters, `normales` regular and `extra` overtime hours pay
      normales * tarifa + extra * tarifa * 3/2. */
  lemma SalarioPorHorasDesdeCero(e: Empleado, normales: real, extra: real)
    requires e.tipo.PorHoras?
    ensures Salario(RegistrarHoras(RegistrarHoras(ResetearHoras(e), normales, false), extra, true))
         == normales * e.tipo.tarifa + extra * e.tipo.tarifa * 3.0 / 2.0
  {
  }

  /** `calcular_comision`: the commission rate applied to the sales total. */
  function Comision(e: Empleado): (r: real)
    requires e.tipo.PorComision?
    ensures |e.tipo.ventas| == 0 ==> r == 0.0
    ensures NoNegativo(e) ==> r >= 0.0
    ensures Salario(e) == e.tipo.salarioBase + r
  {
    assert NoNegativo(e) ==> Sum(e.tipo.ventas, Monto) >= 0.0 by {
      if NoNegativo(e) {
        SumNonNegative(e.tipo.ventas, Monto);
      }
    }
    Sum(e.tipo.ventas, Monto) * e.tipo.porcentaje
  }

  /** `registrar_venta`: appends one sale; pay grows by its commission. */
  function RegistrarVenta(e: Empleado, monto: real): (r: Empleado)
    requires e.tipo.PorComision?
    ensures r.tipo.PorComision? && r == e.(tipo := r.tipo)
    ensures r.tipo.ventas == e.tipo.ventas + [monto]
    ensures r.tipo.salarioBase == e.tipo.salarioBase && r.tipo.porcentaje == e.tipo.porcentaje
    ensures Salario(r) == e.tipo.salarioBase + Comision(r)
    ensures Comision(r) == Comision(e) + monto * e.tipo.porcentaje
    ensures Salario(r) == Salario(e) + monto * e.tipo.porcentaje
  {
    var vs := e.tipo.ventas + [monto];
    assert vs[..|vs| - 1] == e.tipo.ventas;
    e.(tipo := e.tipo.(ventas := vs))
  }

  /** `resetear_ventas`: no sales left, so the pay is the base salary alone. */
  function ResetearVentas(e: Empleado): (r: Empleado)
    requires e.tipo.PorComision?
    ensures r.tipo.PorComision? && r == e.(tipo := r.tipo)
    ensures r.tipo.salarioBase == e.tipo.salarioBase && r.tipo.porcentaje == e.tipo.porcentaje
    ensures |r.tipo.ventas| == 0 && Comision(r) == 0.0
    ensures Salario(r) == e.tipo.salarioBase
  {
    e.(tipo := e.tipo.(ventas := []))
  }

  /** `agregar_proyecto`: appends a pending project, which pays nothing yet. */
  function AgregarProyecto(e: Empleado, nombre: string, pago: real): (r: Empleado)
    requires e.tipo.Freelance?
    ensures r.tipo.Freelance? && r == e.(tipo := r.tipo)
    ensures r.tipo.proyectos == e.tipo.proyectos + [Proyecto(nombre, pago, false)]
    ensures Salario(r) == Salario(e)
  {
    var ps := e.tipo.proyectos + [Proyecto(nombre, pago, false)];
    assert ps[..|ps| - 1] == e.tipo.proyectos;
    e.(tipo := Freelance(ps))
  }

  /** Project `i` carries `nombre` and is still pending. */
  predicate Pendiente(ps: seq<Proyecto>, nombre: string, i: int)
  {
    0 <= i < |ps| && ps[i].nombre == nombre && !ps[i].completado
  }

  /** `completar_proyecto`: marks the first pending project called `nombre` as
      completed and answers true; with no such project it answers false and
      changes nothing. No project is ever un-completed. */
  method CompletarProyecto(e: Empleado, nombre: string) returns (r: Empleado, hecho: bool)
    requires e.tipo.Freelance?
    ensures r.tipo.Freelance? && r == e.(tipo := r.tipo)
    ensures hecho <==> exists i :: Pendiente(e.tipo.proyectos, nombre, i)
    ensures !hecho ==> r == e
    ensures hecho ==>
      exists i ::
        && Pendiente(e.tipo.proyectos, nombre, i)
        && (forall j :: 0 <= j < i ==> !Pendiente(e.tipo.proyectos, nombre, j))
        && r.tipo.proyectos == e.tipo.proyectos[i := e.tipo.proyectos[i].(completado := true)]
        && Salario(r) == Salario(e) + e.tipo.proyectos[i].pago
    ensures |r.tipo.proyectos| == |e.tipo.proyectos|
    ensures forall j :: 0 <= j < |e.tipo.proyectos| && e.tipo.proyectos[j].completado ==> r.tipo.proyectos[j].completado
  {
    var ps := e.tipo.proyectos;
    var i := 0;
    while i < |ps|
      invariant 0 <= i <= |ps|
      invariant forall j :: 0 <= j < i ==> !Pendiente(ps, nombre, j)
    {
      if ps[i].nombre == nombre && !ps[i].completado {
        var ps' := ps[i := ps[i].(completado := true)];
        SumUpdate(ps, i, ps[i].(completado := true), PagoCobrado);
        r := e.(tipo := Freelance(ps'));
        hecho := true;
        assert Pendiente(ps, nombre, i);
        return;
      }
      i := i + 1;
    }
    r := e;
    hecho := false;
  }

  /** The payroll of one company. */
  datatype SistemaNomina = SistemaNomina(empresa: string, empleados: seq<Empleado>)

  /** `agregar_empleado`: appends the employee. */
  function AgregarEmpleado(s: SistemaNomina, e: Empleado): (r: SistemaNomina)
    ensures r.empresa == s.empresa && r.empleados == s.empleados + [e]
    ensures Sum(r.empleados, Salario) == Sum(s.empleados, Salario) + Salario(e)
  {
    var es := s.empleados + [e];
    assert es[..|es| - 1] == s.empleados;
    s.(empleados := es)
  }

  /** `calcular_nomina_total`: the running total over the employees, which is the
      sum of every employee's salary. */
  method NominaTotal(s: SistemaNomina) returns (total: real)
    ensures total == Sum(s.empleados, Salario)
  {
    total := 0.0;
    var i := 0;
    while i < |s.empleados|
      invariant 0 <= i <= |s.empleados|
      invariant total == Sum(s.empleados[..i], Salario)
    {
      assert s.empleados[..i + 1][..i] == s.empleados[..i];
      total := total + Salario(s.empleados[i]);
      i := i + 1;
    }
    assert s.empleados[..i] == s.empleados;
  }
}
