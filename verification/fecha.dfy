/** The local `Fecha` class of the instantiation examples (a "DD-MM-AAAA" parser,
    the New Year factory and the "DD/MM/AAAA" printer) and the constructor
    defaults of the local `Producto` class. */
module Instanciacion {
  import opened Options

  datatype Fecha = Fecha(dia: int, mes: int, anio: int)

  predicate EsDigito(c: char)
  {
    '0' <= c <= '9'
  }

  /** A non-empty run of decimal digits. */
  predicate Digitos(s: string)
  {
    |s| > 0 && forall i :: 0 <= i < |s| ==> EsDigito(s[i])
  }

  /** A digit run without leading zeros: what printing a natural number yields. */
  predicate Canonico(s: string)
  {
    Digitos(s) && (|s| == 1 || s[0] != '0')
  }

  /** The value of a digit run, read most significant digit first. */
  function Valor(s: string): nat
    requires forall i :: 0 <= i < |s| ==> EsDigito(s[i])
    decreases |s|
  {
    if |s| == 0 then 0
    else Valor(s[..|s| - 1]) * 10 + ValorDigito(s[|s| - 1])
  }

  function ValorDigito(c: char): nat
    requires EsDigito(c)
  {
    c as int - '0' as int
  }

  /** Python's `str.split` on one separator character: the pieces between
      separators, empty ones included. */
  function Split(s: string, sep: char): (r: seq<string>)
    ensures |r| >= 1
    ensures forall k :: 0 <= k < |r| ==> sep !in r[k]
    ensures Join(r, sep) == s
    decreases |s|
  {
    if |s| == 0 then [""]
    else
      var init := Split(s[..|s| - 1], sep);
      var c := s[|s| - 1];
      assert s == s[..|s| - 1] + [c];
      if c == sep then
        assert (init + [""])[..|init|] == init;
        init + [""]
      else
        var n := |init|;
        var r := init[..n - 1] + [init[n - 1] + [c]];
        assert r[..n - 1] == init[..n - 1];
        assert n > 1 ==> Join(init, sep) == Join(init[..n - 1], sep) + [sep] + init[n - 1];
        r
  }

  /** The pieces glued back together with the separator between them. */
  function Join(parts: seq<string>, sep: char): string
    requires |parts| >= 1
    decreases |parts|
  {
    if |parts| == 1 then parts[0]
    else Join(parts[..|parts| - 1], sep) + [sep] + parts[|parts| - 1]
  }

  lemma Join3(p: seq<string>, sep: char)
    requires |p| == 3
    ensures Join(p, sep) == p[0] + [sep] + p[1] + [sep] + p[2]
  {
    assert p[..2][..1] == [p[0]];
    assert Join(p[..2][..1], sep) == p[0];
    assert p[..2][1] == p[1];
    assert Join(p[..2], sep) == p[0] + [sep] + p[1];
  }

  /** Splitting after a separator starts a new piece. */
  lemma {:induction false} SplitAfterSeparator(x: string, sep: char, tail: string)
    requires sep !in tail
    ensures Split(x + [sep] + tail, sep) == Split(x, sep) + [tail]
    decreases |tail|
  {
    if |tail| == 0 {
      assert x + [sep] + tail == x + [sep];
      assert (x + [sep])[..|x + [sep]| - 1] == x;
    } else {
      var t' := tail[..|tail| - 1];
      var s := x + [sep] + tail;
      assert s[..|s| - 1] == x + [sep] + t';
      SplitAfterSeparator(x, sep, t');
      assert t' + [tail[|tail| - 1]] == tail;
    }
  }

  /** Splitting undoes joining when no piece holds the separator. */
  lemma {:induction false} SplitJoin(parts: seq<string>, sep: char)
    requires |parts| >= 1
    requires forall k :: 0 <= k < |parts| ==> sep !in parts[k]
    ensures Split(Join(parts, sep), sep) == parts
    decreases |parts|
  {
    var n := |parts|;
    if n == 1 {
      SplitAfterSeparatorFree(parts[0], sep);
    } else {
      SplitJoin(parts[..n - 1], sep);
      SplitAfterSeparator(Join(parts[..n - 1], sep), sep, parts[n - 1]);
      assert parts[..n - 1] + [parts[n - 1]] == parts;
    }
  }

  /** A string without the separator splits into itself alone. */
  lemma {:induction false} SplitAfterSeparatorFree(s: string, sep: char)
    requires sep !in s
    ensures Split(s, sep) == [s]
    decreases |s|
  {
    if |s| > 0 {
      SplitAfterSeparatorFree(s[..|s| - 1], sep);
      assert s[..|s| - 1] + [s[|s| - 1]] == s;
    }
  }

  /** `desde_string`: splits on '-', needs exactly three pieces and reads them as
      day, month and year, each a run of decimal digits. Day and month are not
      range-checked. */
  function DesdeString(s: string): (r: Option<Fecha>)
    ensures r.Some? ==>
      exists d, m, a ::
        && Digitos(d) && Digitos(m) && Digitos(a)
        && s == d + "-" + m + "-" + a
        && r.value == Fecha(Valor(d), Valor(m), Valor(a))
  {
    var p := Split(s, '-');
    if |p| == 3 && Digitos(p[0]) && Digitos(p[1]) && Digitos(p[2]) then
      Join3(p, '-');
      Some(Fecha(Valor(p[0]), Valor(p[1]), Valor(p[2])))
    else None
  }

  /** Every "D-M-A" made of three digit runs parses, whatever the values. */
  lemma DesdeStringAcepta(d: string, m: string, a: string)
    requires Digitos(d) && Digitos(m) && Digitos(a)
    ensures DesdeString(d + "-" + m + "-" + a) == Some(Fecha(Valor(d), Valor(m), Valor(a)))
  {
    var parts := [d, m, a];
    forall k | 0 <= k < 3 ensures '-' !in parts[k] {
      if '-' in parts[k] {
        var i :| 0 <= i < |parts[k]| && parts[k][i] == '-';
      }
    }
    Join3(parts, '-');
    SplitJoin(parts, '-');
  }

  /** `año_nuevo`: the first of January of the given year. */
  function AnioNuevo(anio: int): (r: Fecha)
    ensures r.dia == 1 && r.mes == 1 && r.anio == anio
    ensures Str(r) == "01/01/" + IntToString(anio)
  {
    Fecha(1, 1, anio)
  }

  function Digito(d: nat): (c: char)
    requires d < 10
    ensures EsDigito(c) && ValorDigito(c) == d
  {
    ('0' as int + d) as char
  }

  /** The decimal text of a natural number, as Python's `str` writes it. */
  function NatToString(n: nat): (r: string)
    ensures Canonico(r) && Valor(r) == n
    decreases n
  {
    if n < 10 then [Digito(n)]
    else
      var init := NatToString(n / 10);
      var r := init + [Digito(n % 10)];
      assert r[..|r| - 1] == init;
      r
  }

  /** The text of an integer: a digit run, after a '-' when negative. */
  predicate TextoEntero(s: string)
  {
    Digitos(s) || (|s| > 1 && s[0] == '-' && Digitos(s[1..]))
  }

  /** The decimal text of an integer, with a leading '-' when negative. */
  function IntToString(n: int): (r: string)
    ensures TextoEntero(r)
    ensures n >= 0 ==> Canonico(r) && Valor(r) == n
    ensures n < 0 ==> r[0] == '-' && Canonico(r[1..]) && Valor(r[1..]) == -n
  {
    if n < 0 then
      var r := "-" + NatToString(-n);
      assert r[1..] == NatToString(-n);
      r
    else NatToString(n)
  }

  /** Three integer texts joined by '/' split back into themselves. */
  lemma PartesFecha(d: string, m: string, a: string)
    requires TextoEntero(d) && TextoEntero(m) && TextoEntero(a)
    ensures Split(d + "/" + m + "/" + a, '/') == [d, m, a]
  {
    TextoEnteroSinBarra(d);
    TextoEnteroSinBarra(m);
    TextoEnteroSinBarra(a);
    Join3([d, m, a], '/');
    SplitJoin([d, m, a], '/');
  }

  /** The text of an integer holds no '/'. */
  lemma TextoEnteroSinBarra(s: string)
    requires TextoEntero(s)
    ensures '/' !in s
  {
    forall i | 0 <= i < |s|
      ensures s[i] != '/'
    {
      if !Digitos(s) && i > 0 {
        assert s[i] == s[1..][i - 1];
      }
    }
  }

  /** The `02d` format: a zero in front of a single digit, any wider number as
      is. A negative number already fills the width with its sign. */
  function Pad2(n: int): (r: string)
    ensures |r| >= 2
    ensures n >= 0 ==> Digitos(r) && Valor(r) == n
    ensures 0 <= n < 100 ==> |r| == 2
    ensures n >= 10 ==> r == NatToString(n)
    ensures n < 0 ==> r[0] == '-' && Canonico(r[1..]) && Valor(r[1..]) == -n
    ensures TextoEntero(r)
  {
    if 0 <= n < 10 then
      var r := "0" + NatToString(n);
      assert r[..1] == "0";
      r
    else if n < 0 then "-" + NatToString(-n)
    else
      assert n < 100 ==> NatToString(n) == NatToString(n / 10) + [Digito(n % 10)] && n / 10 < 10;
      NatToString(n)
  }

  /** `__str__`: day and month zero-padded, the year as is, joined by '/'. */
  function Str(f: Fecha): (r: string)
    ensures Split(r, '/') == [Pad2(f.dia), Pad2(f.mes), IntToString(f.anio)]
    ensures 0 <= f.dia < 100 && 0 <= f.mes < 100 && f.anio >= 0 ==>
      && |r| == 6 + |NatToString(f.anio)|
      && r[2] == '/' && r[5] == '/'
      && Digitos(r[..2]) && Valor(r[..2]) == f.dia
      && Digitos(r[3..5]) && Valor(r[3..5]) == f.mes
      && Canonico(r[6..]) && Valor(r[6..]) == f.anio
  {
    var d, m, a := Pad2(f.dia), Pad2(f.mes), IntToString(f.anio);
    PartesFecha(d, m, a);
    assert 0 <= f.dia < 100 && 0 <= f.mes < 100 ==> |d| == 2 && |m| == 2;
    assert |d| == 2 && |m| == 2 ==> DisposicionFecha(d, m, a) by {
      if |d| == 2 && |m| == 2 {
        Disposicion(d, m, a);
      }
    }
    d + "/" + m + "/" + a
  }

  /** Two-character day and month sit at fixed positions around the '/'s. */
  predicate DisposicionFecha(d: string, m: string, a: string)
  {
    var r := d + "/" + m + "/" + a;
    && |r| == 6 + |a|
    && r[2] == '/' && r[5] == '/'
    && r[..2] == d && r[3..5] == m && r[6..] == a
  }

  lemma Disposicion(d: string, m: string, a: string)
    requires |d| == 2 && |m| == 2
    ensures DisposicionFecha(d, m, a)
  {
  }

  /** `s` with every `a` turned into `b`. */
  function Reemplazar(s: string, a: char, b: char): (r: string)
    ensures |r| == |s|
    ensures forall i :: 0 <= i < |s| ==> r[i] == (if s[i] == a then b else s[i])
  {
    seq(|s|, i requires 0 <= i < |s| => if s[i] == a then b else s[i])
  }

  /** A digit run without leading zeros prints back as itself. */
  lemma {:induction false} CanonicoVuelve(s: string)
    requires Canonico(s)
    ensures NatToString(Valor(s)) == s
    decreases |s|
  {
    if |s| > 1 {
      var init := s[..|s| - 1];
      assert init[0] == s[0];
      CanonicoVuelve(init);
      PrimeroNoCeroPositivo(init);
      assert Valor(s) / 10 == Valor(init);
      assert init + [s[|s| - 1]] == s;
    }
  }

  lemma {:induction false} PrimeroNoCeroPositivo(s: string)
    requires Digitos(s) && s[0] != '0'
    ensures Valor(s) >= 1
    decreases |s|
  {
    if |s| > 1 {
      PrimeroNoCeroPositivo(s[..|s| - 1]);
    }
  }

  /** A two-digit run prints back as itself under the `02d` format. */
  lemma DosDigitosVuelven(s: string)
    requires Digitos(s) && |s| == 2
    ensures Pad2(Valor(s)) == s
  {
    assert s[..1][..0] == [];
    if s[0] == '0' {
      assert Valor(s[..1]) == 0;
      assert Valor(s) < 10;
      assert "0" + NatToString(Valor(s)) == s;
    } else {
      CanonicoVuelve(s);
    }
  }

  /** Swapping the separator of three digit runs leaves the runs alone. */
  lemma ReemplazarSeparador(d: string, m: string, a: string, x: char, y: char)
    requires Digitos(d) && Digitos(m) && Digitos(a) && !EsDigito(x)
    ensures Reemplazar(d + [x] + m + [x] + a, x, y) == d + [y] + m + [y] + a
  {
    var s := d + [x] + m + [x] + a;
    var t := d + [y] + m + [y] + a;
    forall i | 0 <= i < |s| ensures Reemplazar(s, x, y)[i] == t[i] {
      if i < |d| {
        assert s[i] == d[i] && EsDigito(d[i]);
      } else if |d| + 1 <= i < |d| + 1 + |m| {
        assert s[i] == m[i - |d| - 1] && EsDigito(m[i - |d| - 1]);
      } else if |d| + 2 + |m| <= i {
        assert s[i] == a[i - |d| - 2 - |m|] && EsDigito(a[i - |d| - 2 - |m|]);
      }
    }
  }

  /** Reading "DD-MM-AAAA" (two-digit day and month, a year without leading
      zeros) and printing the date gives the input with '/' for '-'. */
  lemma LeerEscribir(d: string, m: string, a: string)
    requires Digitos(d) && |d| == 2 && Digitos(m) && |m| == 2 && Canonico(a)
    ensures DesdeString(d + "-" + m + "-" + a).Some?
    ensures Str(DesdeString(d + "-" + m + "-" + a).value) == Reemplazar(d + "-" + m + "-" + a, '-', '/')
  {
    DesdeStringAcepta(d, m, a);
    DosDigitosVuelven(d);
    DosDigitosVuelven(m);
    CanonicoVuelve(a);
    ReemplazarSeparador(d, m, a, '-', '/');
  }

  /** Printing a date with a non-negative day, month and year, then reading the
      text back with '-' for '/', gives the same date. */
  lemma EscribirLeer(f: Fecha)
    requires f.dia >= 0 && f.mes >= 0 && f.anio >= 0
    ensures DesdeString(Reemplazar(Str(f), '/', '-')) == Some(f)
  {
    var d, m, a := Pad2(f.dia), Pad2(f.mes), NatToString(f.anio);
    assert Str(f) == d + "/" + m + "/" + a;
    ReemplazarSeparador(d, m, a, '/', '-');
    DesdeStringAcepta(d, m, a);
  }

  /** The local `Producto` class. */
  datatype Producto = Producto(nombre: string, precio: real, cantidad: int, categoria: string)

  /** The constructor: stock defaults to 1 and category to "General" when left out. */
  function NuevoProducto(nombre: string, precio: real, cantidad: Option<int>, categoria: Option<string>): (r: Producto)
    ensures r.nombre == nombre && r.precio == precio
    ensures cantidad.None? ==> r.cantidad == 1
    ensures cantidad.Some? ==> r.cantidad == cantidad.value
    ensures categoria.None? ==> r.categoria == "General"
    ensures categoria.Some? ==> r.categoria == categoria.value
  {
    Producto(nombre, precio, cantidad.GetOr(1), categoria.GetOr("General"))
  }
}
