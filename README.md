# Med Meet scheduling core in Dafny

This project models the scheduling core of the Med Meet back end, a service
that registers doctors (médicos) and patients (pacientes), keeps each doctor's
weekly availability (horários) and books appointments (agendamentos). The
model covers:

- the slot generator `gerar_slots_agenda`, which tiles one working interval
  into back-to-back slots of one consultation length and marks each slot
  occupied by the first booking that fully contains it;
- the agenda builder `gerar_agenda`, which concatenates, record by record,
  the morning slots and then the afternoon slots of the requested day;
- booking creation in `cadastrar_agendamento`, where the end time is the start
  plus the doctor's consultation length and no overlap check is made;
- the registration guards of `cadastrar_medico` and `cadastrar_paciente`,
  which check the email first and then the CRM or the CPF, and change nothing
  when they refuse.

Times are integer minutes on one timeline. A calendar day is given by the
minute of its midnight (`data`), so `datetime.combine(day, time)` becomes
`data + time`. Bookings carry absolute minutes, so a booking may end after
midnight.

Files and modules:

- `wrappers.dfy` (`Wrappers`): `Option` and `Result`.
- `entities.dfy` (`Entities`): the stored records `Usuario`, `Medico`,
  `Paciente`, `HorarioMedico` and `Agendamento`.
- `slots.dfy` (`Slots`): the `Slot` value and the method `GerarSlotsAgenda`
  with its loop. The method is proved equal to the recursive reference
  function `SlotsOf`. The lemmas prove the count, the tiling and the
  occupancy marking, plus three concrete scenarios.
- `agenda.dfy` (`Agenda`): the method `GerarAgenda`, proved equal to
  `AgendaOf`, with lemmas for concatenation, count and where each slot
  comes from.
- `bookings.dfy` (`Bookings`): the appointment table as a class whose
  `Cadastrar` appends a row. It also holds the lemma that a new booking
  occupies its slot and a demonstration that double booking is accepted.
- `registry.dfy` (`Registry`): the person, doctor and patient tables as a
  class. Its registration methods keep a uniqueness and linkage invariant
  (`TablesValid`).

The model follows the code in two places where a reader might expect
something else:

- No overlap check is made before a booking is inserted (app.py:389-399), so
  the model accepts overlapping bookings (`Bookings.DoubleBooking`). A
  conflict check would be an addition to the system, not a model of it.
- The email is checked before the CRM or CPF (app.py:62-70 and 281-289), so a
  request that repeats both is refused for its email.
- Registration accepts any consultation length, zero and negative ones
  included (app.py:78, schema/medico.py:13). The slot loop (app.py:223) ends
  only when the length is positive or the first consultation does not fit
  (`Slots.Termina`). So after such a doctor registers, asking for their
  agenda on a day with an ordinary window never returns
  (`Registry.ScenarioDuracaoZero`, `Slots.CursorNuncaPassa`). The model keeps
  the source's behaviour: registration accepts the length, and slot
  generation is modelled on exactly the inputs where the loop ends.

## Model

| member | source | states |
|---|---|---|
| `Slots.PrimeiroQueContem` | app.py:234-241 | the scan finds the first booking in list order whose start is at or before the slot start and whose end is at or after the slot end; if it finds none, no booking contains the slot |
| `Slots.MarcarSpec` | app.py:227-241 | a slot is occupied exactly when some booking fully contains it. An occupied slot carries the id of the first such booking; a free slot carries no id |
| `Slots.GerarSlotsAgenda` | app.py:216-246 | on every window the loop ends on (`Termina`: positive length, or not even one consultation fits), the while loop with its inner scan and break yields exactly the reference tiling `SlotsOf` of the window |
| `Slots.SlotsSemDuracao` | app.py:223 | with a length that is not positive, a window the loop ends on gives no slots |
| `Slots.CursorNuncaPassa` | app.py:223-245 | with a length that is not positive and a first consultation that fits, the loop test still holds after any number of cursor advances, so the loop never ends outside `Termina` |
| `Slots.SlotsCount` | app.py:223 | with duration > 0 the window yields ⌊(fim − inicio)/duration⌋ slots. It yields none when the window is inverted or shorter than one consultation, so a leftover piece is dropped |
| `Slots.SlotAt` | app.py:223-244 | slot k starts k consultations after the window start, ends one consultation later, ends no later than the window end, and is marked as the bookings say |
| `Slots.SlotsTileWindow` | app.py:223-244 | the first slot starts at the window start; each slot lasts exactly one consultation; each later slot starts at the previous slot's end; every slot lies inside the window |
| `Slots.SlotsMarking` | app.py:230-241 | every generated slot is occupied iff some booking fully contains it, and then carries the id of the first such booking; otherwise it is free with no id. A partly overlapping booking leaves the slot free |
| `Slots.SlotsValid` | app.py:222-246 | every generated slot lies in the window, lasts one consultation and is marked correctly |
| `Slots.ScenarioFreeMorning` | app.py:216-246 | 08:00-12:00 with 30 minutes and no bookings gives eight free slots, 08:00-08:30 through 11:30-12:00 |
| `Slots.ScenarioOneBooking` | app.py:234-241 | the same window with a 09:00-09:30 booking marks only the 09:00-09:30 slot as occupied, with that booking's id |
| `Slots.ScenarioPartialOverlap` | app.py:238 | a 09:15-09:45 booking contains no 30-minute slot, so every slot stays free |
| `Agenda.GerarAgenda` | app.py:201-214 | when the slot loop ends on every window of every record (always for an empty list or a positive length), the accumulating loop yields exactly `AgendaOf`: for each record in order, its morning slots followed by its afternoon slots, each window placed on the requested day |
| `Agenda.AgendaConcat` | app.py:203-212 | the agenda of two record lists in a row is the first list's agenda followed by the second's |
| `Agenda.AgendaByRecord` | app.py:202-214 | an empty record list gives an empty agenda; a record followed by others gives its morning slots, then its afternoon slots, then the others' agenda |
| `Agenda.AgendaCount` | app.py:202-214 | the agenda's length is the sum over the records of the morning and afternoon slot counts |
| `Agenda.AgendaSlotsFromRecords` | app.py:203-212 | every agenda slot is a valid slot of the morning or afternoon window of one of the given records |
| `Agenda.AgendaSemDuracao` | app.py:202-214 | with a length that is not positive, records whose windows the slot loop ends on give an empty agenda; an empty record list gives an empty agenda for any length |
| `Agenda.ScenarioOneRecord` | app.py:203-212 | one record 08:00-12:00 / 13:00-17:00 with 30 minutes gives 16 slots: the eight morning slots, then the eight afternoon slots |
| `Bookings.TabelaAgendamentos.constructor` | model/agendamento.py:5-13 | an empty appointment table satisfies the table invariant |
| `Bookings.TabelaAgendamentos.Cadastrar` | app.py:374-399 | a missing patient is reported first, then a missing doctor, and either refusal leaves the table unchanged. Otherwise one row is appended with the next id, start = the requested minute, end = start + the doctor's consultation length and status "confirmado". Nothing is checked against existing rows |
| `Bookings.IdsDistintos` | model/agendamento.py:8 | in a table that keeps its invariant no two rows share an id, so a slot's booking id names exactly one appointment |
| `Bookings.PrimeiroQueContemAppend` | app.py:234-241 | appending a booking changes the first containing booking only when no earlier booking contained the slot |
| `Bookings.BookingOccupiesSlot` | app.py:387-395 | a booking made at a generated slot's start, lasting one consultation, makes that slot occupied when the window is generated again with the booking added at the end of the list. The slot carries the new booking's id if it was free and keeps the earlier id otherwise |
| `Bookings.DoubleBooking` | app.py:387-399 | two requests for the same doctor at the same minute are both accepted, with distinct ids, and the two appointments overlap |
| `Registry.Banco.constructor` | model/usuario.py:5-11 | an empty database of persons, doctors and patients satisfies the tables' invariant |
| `Registry.InsertMedicoValid` | app.py:72-80 | inserting a person with an unused email and a doctor with an unused CRM linked to it keeps ids ordered, keys unique and every person linked to exactly one doctor or patient |
| `Registry.InsertPacienteValid` | app.py:291-299 | the same invariant is kept when a person with an unused email and a patient with an unused CPF linked to it are inserted |
| `Registry.Banco.CadastrarMedico` | app.py:60-101 | a used email is refused first, even when the CRM is also used; then a used CRM is refused. A refusal leaves every table unchanged. A success adds exactly one person and one doctor linked to it, so the email and CRM sets grow by exactly those keys |
| `Registry.Banco.CadastrarPaciente` | app.py:279-321 | the same rule with CPF in place of CRM. A success adds exactly one new email and one new CPF; the doctor table is unchanged |
| `Registry.ScenarioDuplicateCrm` | app.py:62-70 | after one doctor registers, a new email with the same CRM is refused for the CRM, and the same email with the same CRM is refused for the email. One person and one doctor remain |
| `Registry.ScenarioDuracaoZero` | app.py:72-80 | a doctor with consultation length 0 is registered, and the usual 08:00-12:00 / 13:00-17:00 record is then outside the windows the slot loop ends on |

## Left out

- HTTP transport: the Flask routes, request parsing, `unquote`, JSON responses and status codes.
- Persistence: sessions, commits and ORM relationships. Tables are sequences in a class, and a lookup query becomes a set-membership test.
- Weekday resolution: the locale-dependent weekday name and the SQL `LIKE` match that pick the availability records. The builder receives the already-filtered records, and `HorarioMedico.diaSemana` is carried but not used.
- Date filtering of bookings: the query (app.py:185-188) that keeps the requested doctor's bookings starting on the requested date. The generator receives the already-filtered list. The query has no ORDER BY, so the model takes the list in insertion order, which is the row-id order of SQLite's table scan. `Bookings.BookingOccupiesSlot` relies on this when it places a new booking after the older ones.
- Name lookups: finding the patient and the doctor by name when booking is a database query. `Cadastrar` receives the lookup results as `Option` values.
- Date and time parsing: `strptime` of the requested date and time, and its error for malformed input, are not modelled. `Cadastrar` receives the start as a minute.
- Time formatting: the `HH:MM` strings of the response. Slots keep integer minutes.
- Time precision: seconds and microseconds are not modelled. Times are whole minutes.
- Agenda.GerarAgenda: requires `JanelasTerminam`, the same exclusion for every window of every record. An empty record list is always admitted.
- Slots.GerarSlotsAgenda: inputs on which the source's slot loop never ends are excluded by `Termina`. These are a length that is not positive together with a window where the first consultation fits (see `Slots.CursorNuncaPassa`). The other inputs with such a length are modelled and give `[]`: an empty record list, or a window inverted by at least the length. A null `duracao_consulta` (a `TypeError` in the source) is not modelled, because lengths are integers. Booking creation and registration accept any integer length, as the source does. The count, tiling, marking and agenda lemmas are stated for a positive length. For any other length `Slots.SlotsSemDuracao` and `Agenda.AgendaSemDuracao` show the result is empty.
- Registration timestamp: `Usuario.data_cadastro` (model/usuario.py:11) is filled from the database clock by `func.now()`. It is not modelled, because the core never reads it.
- Null availability times: these make `datetime.combine` raise in the source. They are not modelled.
- Datetime range: overflow at the limits of the datetime range is not modelled, because minutes are unbounded integers.
- Bookings.TabelaAgendamentos.Cadastrar: the next id is the row count plus one. This matches an autoincrement key on a table that never loses rows; the core has no deletions.
- Storage integrity errors: the `IntegrityError` branch of registration cannot be reached in the sequential model, because the pre-checks already reject duplicates. The check-then-insert race between concurrent requests is not modelled.
- Other endpoints: registering availability records, the listings, the counts and viewing one appointment are outside this core.
