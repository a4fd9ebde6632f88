# Object-oriented teaching examples and the library book service, in Dafny

This project models the stateful logic of a Python teaching repository:

- **Book catalogue.** The `Libro` record with its getters, setters, `loan` and `return_book` (module `Libro`). The in-memory book list behind the two library web services, keyed by ISBN (module `Catalogue` for what both share, `FastApi` and `Flask` for what differs). Each request handler is a pure transition on `seq<Book>`. It returns a `Reply`: a status (`Ok`, `Created`, `NotFound`, `Conflict`, `BadRequest`, each with its HTTP code), the list afterwards and the book shown to the client.
- **Course enrolment** (module `Cursos`). Students with their enrolled courses and a grade dictionary. Courses with modules, enrolled students and a three-state life cycle.
- **Payroll** (module `Nomina`). One datatype variant per employee subclass, the salary rule of each, the per-kind bookkeeping, the employee counter and the payroll total.
- **Persona** (module `Personas`). The constructor counter, birthdays, the name setter and the two age predicates.
- **Instantiation examples** (module `Instanciacion`). The local `Fecha` class (the `DD-MM-AAAA` parser, the New Year factory, the `DD/MM/AAAA` printer) and the defaults of the local `Producto` class.

Modelling choices:
- Class-wide counters and the module-level book list become explicit values passed in and returned.
- Money, hours, grades and percentages are `real`, so arithmetic is exact.
- Student objects are compared by identity in the source, so a course refers to students by their position in the sequence of all student objects.
- Grades are an insertion-ordered association list, as a Python dict is. This keeps equal grades of different courses apart in the sum.

The book services are modelled as their handlers behave:
- The ISBN has a setter and is writable on a `Libro`.
- A duplicate ISBN on create is answered with 400, like a loan conflict (`Conflict`, code 400), not with a distinct code.
- Full and partial updates may overwrite availability directly.
- The Flask service validates nothing beyond the presence of the create keys.

## Model

| member | source | states |
|---|---|---|
| Libro.NewBook | Tutorial_Backend_API_REST_Python/Libro.py:14-31 | each getter of a new book returns exactly the value given to the constructor |
| Libro.Get | Tutorial_Backend_API_REST_Python/Libro.py:34-76 | each of the six property getters yields a value of its property's kind (text for title, ISBN and author, a number for year and pages, a flag for availability); with Libro.Set and Libro.GettersDetermineBook the six getters determine the book |
| Libro.Set | Tutorial_Backend_API_REST_Python/Libro.py:38-80 | a setter makes its own getter return the new value and leaves the other five getters unchanged; the ISBN included |
| Libro.Loan | Tutorial_Backend_API_REST_Python/Libro.py:83-85 | the book becomes unavailable, every other property is unchanged, and the book is a fixed point exactly when it was already lent (so lending twice equals lending once) |
| Libro.ReturnBook | Tutorial_Backend_API_REST_Python/Libro.py:87-89 | the book becomes available, every other property is unchanged, and it is a fixed point exactly when it was already available (idempotence) |
| Libro.LoanReturnInverse | Tutorial_Backend_API_REST_Python/Libro.py:83-89 | returning a book just lent from the shelf gives the original book back, and vice versa |
| Catalogue.IndexOf | 6_Biblioteca_python/app_fastapi.py:83-88 | the scan yields the position of the first book carrying the ISBN, and nothing exactly when no book carries it |
| Catalogue.Code | 6_Biblioteca_python/app_flask.py:72-127 | the outcomes map to the HTTP codes the handlers answer with: 200 for success, 201 for a creation, 404 for an unknown ISBN, and 400 for both a missing key and a refusal by the list's state (duplicate ISBN, already lent, already back), as also at app_fastapi.py:153-170 and 305-348; each code is produced by exactly those outcomes |
| Catalogue.Lookup | 6_Biblioteca_python/app_flask.py:31-36 | the lookup returns the book at the first matching position, and None exactly when every book has another ISBN |
| Catalogue.Fetch | 6_Biblioteca_python/app_fastapi.py:128-150 | GET of one book is NotFound exactly when the ISBN is absent, otherwise Ok with the looked-up book; the list never changes |
| Catalogue.Insert | 6_Biblioteca_python/app_flask.py:77-92 | a duplicate ISBN is refused with the list unchanged; otherwise the book is appended at the end; ISBN uniqueness is preserved |
| Catalogue.Without | 6_Biblioteca_python/app_fastapi.py:283 | removing one position shortens the list by one, keeps the other books in order, loses only that book (multiset), and under unique ISBNs leaves no book with its ISBN |
| Catalogue.Remove | 6_Biblioteca_python/app_fastapi.py:261-283 | DELETE is NotFound with the list unchanged exactly when the ISBN is absent, otherwise removes the first match only; the Flask handler (app_flask.py:166-176) is the same |
| Catalogue.Lend | 6_Biblioteca_python/app_fastapi.py:291-321 | NotFound exactly when the ISBN is absent, Conflict exactly when the first match is already lent, both with the list unchanged; otherwise the answer is Ok, only that book is lent and it is returned; ISBNs keep their positions. The Flask handler (app_flask.py:185-203) is the same |
| Catalogue.GiveBack | 6_Biblioteca_python/app_fastapi.py:324-354 | NotFound exactly when absent, Conflict exactly when the first match is already available, both with the list unchanged; otherwise the answer is Ok, only that book becomes available and it is returned. The Flask handler (app_flask.py:207-225) is the same |
| Catalogue.ApplyPatch | 6_Biblioteca_python/app_fastapi.py:246-256 | each property carried by the update takes the given value, each property left out keeps its prior value, and the ISBN never changes |
| Catalogue.Update | 6_Biblioteca_python/app_flask.py:136-154 | an update on an absent ISBN is NotFound with the list unchanged; otherwise only the first match is rewritten by the field-wise update and all ISBNs stay at their positions |
| Catalogue.Filter | 6_Biblioteca_python/app_fastapi.py:365-377 | a book is in the "disponibles" (or "prestados") result exactly when it is in the list with that availability |
| Catalogue.FilterAppend | 6_Biblioteca_python/app_fastapi.py:365 | the filters keep list order: the filter of a concatenation is the concatenation of the filters |
| Catalogue.FilterPartition | 6_Biblioteca_python/app_fastapi.py:357-378 | the two filters partition the list: together they hold every book exactly as often as the list does |
| FastApi.MakeInput | 6_Biblioteca_python/app_fastapi.py:28-35 | a create body without `disponible` stands for an available book; given values are kept |
| FastApi.SeedBooks | 6_Biblioteca_python/app_fastapi.py:389-394 | the four start-up books (the three shared ones and "1984") have distinct ISBNs and each meets the create schema's constraints |
| FastApi.Startup | 6_Biblioteca_python/app_fastapi.py:383-395 | start-up appends exactly the four example books after whatever the list held |
| FastApi.CreateBook | 6_Biblioteca_python/app_fastapi.py:153-187 | with a body meeting the schema, an existing ISBN is refused with the list unchanged; otherwise the list grows by one, the old books stay in front, the new book carries the body's values and is the book returned; consistency is preserved |
| FastApi.ReplaceBook | 6_Biblioteca_python/app_fastapi.py:190-220 | PUT on an absent ISBN is NotFound with the list unchanged; otherwise the first match gets the body's title, author, year, pages and availability but keeps the path's ISBN, whatever ISBN the body carries; that book is returned; nothing else changes |
| FastApi.PatchBook | 6_Biblioteca_python/app_fastapi.py:223-258 | PATCH on an absent ISBN is NotFound with the list unchanged; otherwise the first match takes every non-None field, keeps the rest and is returned; nothing else changes |
| FastApi.EmptyTitlePatchBreaksConsistency | 6_Biblioteca_python/app_fastapi.py:60-66 | the partial-update schema accepts an empty title, and patching a seeded book with it leaves a book the create schema would refuse |
| FastApi.StrictPatchKeepsConsistency | 6_Biblioteca_python/app_fastapi.py:28-35 | when a present title or author must be non-empty, as on create, PATCH keeps every stored book within the create schema |
| FastApi.DeleteKeepsConsistency | 6_Biblioteca_python/app_fastapi.py:261-283 | DELETE keeps ISBNs unique and every remaining book within the create schema |
| FastApi.LendKeepsConsistency | 6_Biblioteca_python/app_fastapi.py:291-319 | lending keeps the list consistent |
| FastApi.ReturnKeepsConsistency | 6_Biblioteca_python/app_fastapi.py:324-352 | returning keeps the list consistent |
| FastApi.RunKeepsConsistency | 6_Biblioteca_python/app_fastapi.py:153-354 | any sequence of schema-valid requests keeps ISBNs unique and every book within the create schema (PATCH under the stricter title/author rule) |
| Flask.MissingField | 6_Biblioteca_python/app_flask.py:72-75 | the check reports nothing exactly when all six keys are present, and reports a key exactly when it is missing and every key before it in the order titulo, isbn, autor, anio, paginas, disponible is present |
| Catalogue.SampleBooks | 6_Biblioteca_python/app_flask.py:245-247 | the three example books both services load have distinct ISBNs (the FastAPI start-up list, app_fastapi.py:389-393, begins with the same three) |
| Flask.SeedBooks | 6_Biblioteca_python/app_flask.py:242-249 | the Flask start-up list is the three shared example books, with distinct ISBNs |
| Flask.CreateBook | 6_Biblioteca_python/app_flask.py:61-97 | BadRequest exactly when a key is missing; Conflict exactly when all keys are present and the ISBN exists; both leave the list unchanged; otherwise the book built from the six values is appended |
| Flask.UpdateBook | 6_Biblioteca_python/app_flask.py:131-159 | PUT is partial: NotFound with the list unchanged when the ISBN is absent, otherwise only the keys present overwrite the first match, which is returned; an `isbn` key is ignored and ISBNs stay at their positions |
| Flask.ListBooks | 6_Biblioteca_python/app_flask.py:104-113 | the listing shows every book in order and its `total` is the number of books |
| Flask.AvailableBooks | 6_Biblioteca_python/app_flask.py:229-238 | the listing is the availability filter of the list, so it keeps list order and multiplicity (Catalogue.FilterAppend, Catalogue.FilterPartition); it holds exactly the available books, and its `total` is their count, which equals the number of books minus the lent ones |
| Flask.RunKeepsUniqueIsbns | 6_Biblioteca_python/app_flask.py:77-79 | any sequence of create, PUT, delete, loan and return requests keeps ISBNs unique |
| Personas.NuevaPersona | 1_Creacion_Clases/persona.py:28-52 | a construction stores the three values, starts in state "activo" and raises the counter by exactly one |
| Personas.ConstruirTodas | 1_Creacion_Clases/persona.py:26-52 | constructing a sequence of people raises the counter by their number and builds each from its own arguments |
| Personas.TotalCuentaConstrucciones | 1_Creacion_Clases/persona.py:110-121 | starting from the class's zero, the reported total equals the number of constructions |
| Personas.CumplirAnios | 1_Creacion_Clases/persona.py:66-73 | a birthday adds exactly one year and changes nothing else |
| Personas.EsMayorDeEdad | 1_Creacion_Clases/persona.py:75-82 | adult from 18 on; its partner Personas.MayoriaTrasCumpleanos states when birthdays make a person adult and that adulthood persists |
| Personas.ValidarEdad | 1_Creacion_Clases/persona.py:123-138 | an age is valid from 0 to 120 inclusive; its partner Personas.EdadValidaTrasCumpleanos states how long birthdays keep it valid |
| Personas.TotalPersonas | 1_Creacion_Clases/persona.py:110-121 | the class method reads the counter; its partner Personas.TotalCuentaConstrucciones states that from zero it equals the number of constructions |
| Personas.ActualizarNombre | 1_Creacion_Clases/persona.py:100-108 | the setter changes only the name |
| Personas.CumpleanosSuman | 1_Creacion_Clases/persona.py:72 | n birthdays add exactly n years and change nothing else |
| Personas.MayoriaTrasCumpleanos | 1_Creacion_Clases/persona.py:75-82 | after n birthdays a person is adult exactly when age plus n is at least 18; an adult stays adult |
| Personas.EdadValidaTrasCumpleanos | 1_Creacion_Clases/persona.py:123-138 | a valid age stays valid through n birthdays exactly while it stays at most 120 |
| Cursos.NuevoEstudiante | 2_Agregacion_Composicion/curso_estudiante.py:29-42 | a new student has the given data, no courses and no grades |
| Cursos.InscribirCurso | 2_Agregacion_Composicion/curso_estudiante.py:44-55 | the course is listed afterwards, appended only when absent, so the list stays duplicate-free |
| Cursos.NotaDe | 2_Agregacion_Composicion/curso_estudiante.py:66 | the dictionary lookup finds nothing exactly when no entry carries the course, and otherwise returns the grade of an entry for that course |
| Cursos.Guardar | 2_Agregacion_Composicion/curso_estudiante.py:66 | storing a grade makes that course's lookup return it, leaves every other course's lookup unchanged, keeps keys unique and grows the dictionary only for a new course |
| Cursos.AsignarNota | 2_Agregacion_Composicion/curso_estudiante.py:57-69 | a grade outside [0, 5] changes nothing; a grade inside is stored for that course only; the in-range invariant is preserved |
| Cursos.SegundaNotaSobrescribe | 2_Agregacion_Composicion/curso_estudiante.py:66 | grading the same course twice, the second time with a valid grade, equals grading it once with the second value; an out-of-range first grade changes nothing |
| Cursos.Promedio | 2_Agregacion_Composicion/curso_estudiante.py:71-80 | the average is 0 without grades, otherwise times the count it gives the sum of grades; with grades in [0, 5] it lies in [0, 5] |
| Cursos.NuevoCurso | 2_Agregacion_Composicion/curso_estudiante.py:145-168 | a new course has no students, no modules and is in planning |
| Cursos.AgregarModulo | 2_Agregacion_Composicion/curso_estudiante.py:170-185 | exactly one module is appended, nothing else changes and the total hours grow by its hours |
| Cursos.TotalHoras | 2_Agregacion_Composicion/curso_estudiante.py:220-227 | a course without modules has 0 hours, and with non-negative module hours the total is non-negative; how it grows is stated by Cursos.AgregarModulo and Cursos.TotalHorasAcumula |
| Cursos.TotalHorasAcumula | 2_Agregacion_Composicion/curso_estudiante.py:220-227 | after adding a sequence of modules, the total hours are the prior total plus the sum of their hours |
| Cursos.InscribirEstudiante | 2_Agregacion_Composicion/curso_estudiante.py:187-202 | the student is in the course afterwards, appended only when absent (no duplicates), and then records the course name; no other student object changes; grades are untouched; course/student coherence is preserved |
| Cursos.QuitarPrimero | 2_Agregacion_Composicion/curso_estudiante.py:215 | `list.remove` takes out exactly the first occurrence (no earlier element equals it) and keeps the other elements in their order; it drops one copy from the multiset and changes nothing when the element is absent |
| Cursos.DarDeBaja | 2_Agregacion_Composicion/curso_estudiante.py:204-218 | only an enrolled student is removed: the first occurrence goes, the other students keep their order, and without duplicates the student is then absent; nothing else in the course changes and the student objects are not touched |
| Cursos.IniciarCurso | 2_Agregacion_Composicion/curso_estudiante.py:247-253 | only the state can change, it changes exactly from planning, and then to running |
| Cursos.FinalizarCurso | 2_Agregacion_Composicion/curso_estudiante.py:255-261 | only the state can change, it changes exactly from running, and then to finished |
| Cursos.EstadoAvanza | 2_Agregacion_Composicion/curso_estudiante.py:247-261 | over any sequence of start/finish calls the state never moves back, moves at most one step per call, and a finished course never changes |
| Cursos.FinalizarRequiereIniciar | 2_Agregacion_Composicion/curso_estudiante.py:247-261 | a course in planning can be finished only by a start call followed later by a finish call |
| Nomina.Contratar | 5_Polimorfismo/empleados_polimorfismo.py:39-56 | a new employee gets the previous counter plus one as number and starts active; each kind stores its given salary or rates with no benefits, zero hours, no sales or no projects, and the initial salary is the monthly salary, 0, the base salary or 0 |
| Nomina.ContratarTodos | 5_Polimorfismo/empleados_polimorfismo.py:36-54 | employees constructed in sequence get consecutive, hence distinct and increasing, numbers |
| Nomina.Salario | 5_Polimorfismo/empleados_polimorfismo.py:125-134 | `calcular_salario` of each subclass (also lines 210-222, 295-305, 369-379): a full-time employee earns exactly the monthly salary; the other kinds' formulas are fixed by Nomina.RegistrarHoras, Nomina.SalarioPorHorasDesdeCero, Nomina.Comision and Nomina.CompletarProyecto; with non-negative amounts the salary is non-negative, a commission earner earns at least the base salary, and a freelancer at most the sum of all project fees |
| Nomina.SalarioConBeneficios | 5_Polimorfismo/empleados_polimorfismo.py:147-156 | the monthly salary plus the sum of the benefits' values, so without benefits it is the monthly salary; with non-negative amounts it is never below the plain salary |
| Nomina.AgregarBeneficio | 5_Polimorfismo/empleados_polimorfismo.py:136-156 | exactly one benefit is appended; the salary is unchanged and the salary with benefits grows by its value |
| Nomina.RegistrarHoras | 5_Polimorfismo/empleados_polimorfismo.py:195-222 | overtime hours go only to the overtime counter, others only to the regular one; pay grows by the hours times the rate, times 1.5 for overtime |
| Nomina.SalarioPorHorasDesdeCero | 5_Polimorfismo/empleados_polimorfismo.py:210-227 | from reset counters, the hourly salary is regular hours times the rate plus overtime hours times the rate times 3/2 |
| Nomina.ResetearHoras | 5_Polimorfismo/empleados_polimorfismo.py:224-228 | both counters become 0 and with them the salary |
| Nomina.RegistrarVenta | 5_Polimorfismo/empleados_polimorfismo.py:266-305 | one sale is appended; the commission and the salary both grow by the sale times the rate, and the salary is base plus commission |
| Nomina.Comision | 5_Polimorfismo/empleados_polimorfismo.py:285-305 | the commission is 0 without sales and non-negative with non-negative amounts, and the salary is the base salary plus the commission |
| Nomina.ResetearVentas | 5_Polimorfismo/empleados_polimorfismo.py:307-310 | no sales remain while the base salary and the commission rate are kept, the commission is 0 and the salary equals the base salary |
| Nomina.AgregarProyecto | 5_Polimorfismo/empleados_polimorfismo.py:338-352 | one pending project is appended and the salary is unchanged |
| Nomina.CompletarProyecto | 5_Polimorfismo/empleados_polimorfismo.py:354-379 | true exactly when some project of that name is pending; then only the first such project is marked completed and the salary grows by its fee; false changes nothing; nothing is ever un-completed |
| Nomina.AgregarEmpleado | 5_Polimorfismo/empleados_polimorfismo.py:428-439 | the employee is appended and the sum of salaries grows by theirs |
| Nomina.NominaTotal | 5_Polimorfismo/empleados_polimorfismo.py:441-473 | the accumulated total equals the sum of every employee's salary |
| Instanciacion.Split | 3_Instanciacion/instanciacion_ejemplos.py:294 | splitting yields at least one piece, no piece holds the separator, and joining the pieces gives the input back |
| Instanciacion.SplitJoin | 3_Instanciacion/instanciacion_ejemplos.py:294 | splitting undoes joining pieces that do not hold the separator |
| Instanciacion.DesdeString | 3_Instanciacion/instanciacion_ejemplos.py:283-295 | a parsed date comes from a text of three digit runs joined by '-', read as day, month and year in that order |
| Instanciacion.DesdeStringAcepta | 3_Instanciacion/instanciacion_ejemplos.py:294-295 | every text of three digit runs joined by '-' parses to their values, with no range check on day or month |
| Instanciacion.AnioNuevo | 3_Instanciacion/instanciacion_ejemplos.py:309-320 | the factory yields day 1, month 1 of the given year, printed "01/01/" and the year |
| Instanciacion.NatToString | 3_Instanciacion/instanciacion_ejemplos.py:323 | the decimal text of a natural number is a digit run without leading zeros that reads back as the number |
| Instanciacion.IntToString | 3_Instanciacion/instanciacion_ejemplos.py:323 | the year's text is its canonical digit run, after a '-' when negative, and reads back as its absolute value |
| Instanciacion.Pad2 | 3_Instanciacion/instanciacion_ejemplos.py:323 | for 0 to 99 the format is exactly two digits, for 10 and above the plain decimal text, for negative numbers a sign then the digits; non-negative results read back as the number |
| Instanciacion.Str | 3_Instanciacion/instanciacion_ejemplos.py:322-323 | for every date, the text splits at '/' into exactly the `02d` day, the `02d` month and the year's decimal text, in that order (negative or wide fields included); for a day and month in 0..99 and a non-negative year it is "DD/MM/" and the year, with '/' at positions 2 and 5 and each field reading back as its value |
| Instanciacion.LeerEscribir | 3_Instanciacion/instanciacion_ejemplos.py:284-323 | for "DD-MM-AAAA" with two-digit day and month and a year without leading zeros, printing the parsed date gives the input with '/' for '-' |
| Instanciacion.EscribirLeer | 3_Instanciacion/instanciacion_ejemplos.py:277-323 | printing a date with non-negative fields and parsing it back with '-' for '/' gives the same date |
| Instanciacion.NuevoProducto | 3_Instanciacion/instanciacion_ejemplos.py:136-149 | stock defaults to 1 and category to "General" when left out; given values are kept |

## Findings

| source | as written | input that shows it | evidently intended | confidence | as-written member | corrected member |
|---|---|---|---|---|---|---|
| 6_Biblioteca_python/app_fastapi.py:62 | the partial-update schema declares the title (and the author, line 63) without the minimum length of 1 that the create schema imposes | PATCH of an existing ISBN with body `{"titulo": ""}` | a present title or author is non-empty, so every stored book keeps meeting the create schema | not executed; medium | FastApi.EmptyTitlePatchBreaksConsistency | FastApi.StrictPatchKeepsConsistency |

`FastApi.PatchBook` keeps the schema as written. The list invariant proved in `FastApi.RunKeepsConsistency` uses the corrected rule, `FastApi.StrictUpdate`.

## Left out

- Web plumbing: routing, decorators, JSON serialisation, `HTTPException`, async handlers and the Flask server start. The dictionary a handler returns is modelled as the book in `Reply.shown`, and messages are dropped.
- The generic `except Exception` → 500 handlers of the Flask service. Also left out are bodies whose values have the wrong JSON type: the model takes typed values.
- The root information endpoints, which only return constant text.
- `ejemplo_pruebas.py`: an interactive HTTP client, all I/O.
- `animales_herencia.py`: string building, printing, and a `random.choice`.
- Every `print`, and these string builders: `mostrar_informacion`, `obtener_info`, `obtener_resumen`, `obtener_detalle`, `saludar`, `trabajar`, `tomar_descanso`, and `__str__`/`__repr__` other than `Fecha`'s.
- `listar_estudiantes` and `listar_modulos`, which only print.
- `listar_empleados_por_tipo`, `obtener_estadisticas` and `generar_reporte_detallado`: grouping by runtime class name, and printing.
- `isinstance` checks, including the refusal branch of `agregar_empleado`: typing makes them vacuous.
- The base `calcular_salario` raising `NotImplementedError`: every employee has a kind.
- Nomina.RegistrarHoras: the default argument `son_extra=False` is not a separate entry point; a call without it is the call with `sonExtra` false.
- The per-kind methods (`registrar_horas`, `registrar_venta`, `agregar_proyecto`, ...) exist only on their subclass. Calling one on another kind is an `AttributeError` in Python and a precondition here.
- `Fecha.hoy`: it reads the clock.
- Floating-point rounding: money, hours, grades and percentages are exact reals.
- `int()` leniency in `desde_string`: signs, surrounding whitespace, underscores and non-ASCII Unicode decimal digits (such as Arabic-Indic or full-width digits). Only decimal digit runs are read; anything else is the error outcome (`None`), where Python raises `ValueError`.
- The `sys.path` manipulation and imports of the example scripts.
