/**
 * Booking creation (`cadastrar_agendamento`): the appointment ends one
 * consultation after it starts, and it is inserted without any check against
 * the doctor's existing appointments.
 */
module Bookings {
  import opened Wrappers
  import opened Entities
  import opened Slots

  /** Why a booking request is refused: one of the two name lookups found nobody. */
  datatype ErroAgendamento = PacienteNaoEncontrado | MedicoNaoEncontrado

  /** The appointment table; rows are never deleted, so row `i` holds the appointment with id `i + 1`. */
  class TabelaAgendamentos {
    var linhas: seq<Agendamento>

    ghost predicate Valid()
      reads this
    {
      forall i :: 0 <= i < |linhas| ==> linhas[i].id == i + 1
    }

    constructor ()
      ensures Valid() && linhas == []
    {
      linhas := [];
    }

    /**
     * Books the patient and the doctor that the name lookups found, from minute
     * `dataHora`. The patient lookup is checked first. A refused request leaves
     * the table as it was; an accepted one appends exactly one row, whatever
     * the rows already there.
     */
    method Cadastrar(paciente: Option<Paciente>, medico: Option<Medico>, dataHora: int)
      returns (r: Result<Agendamento, ErroAgendamento>)
      requires Valid()
      modifies this
      ensures Valid()
      ensures paciente.None? ==> r == Err(PacienteNaoEncontrado)
      ensures paciente.Some? && medico.None? ==> r == Err(MedicoNaoEncontrado)
      ensures r.Err? ==> linhas == old(linhas)
      ensures paciente.Some? && medico.Some? ==> r.Ok?
      ensures r.Ok? ==>
        && r.value.id == |old(linhas)| + 1
        && r.value.medicoId == medico.value.id
        && r.value.pacienteId == paciente.value.id
        && r.value.inicio == dataHora
        && r.value.fim == r.value.inicio + medico.value.duracaoConsulta
        && r.value.status == StatusConfirmado
        && linhas == old(linhas) + [r.value]
    {
      if paciente.None? {
        return Err(PacienteNaoEncontrado);
      }
      if medico.None? {
        return Err(MedicoNaoEncontrado);
      }
      var m := medico.value;
      var a := Agendamento(|linhas| + 1, m.id, paciente.value.id, dataHora, dataHora + m.duracaoConsulta, StatusConfirmado);
      linhas := linhas + [a];
      r := Ok(a);
    }
  }

  /** In a valid table no two rows share an id, so a slot's `agendamentoId` names exactly one appointment. */
  lemma IdsDistintos(t: TabelaAgendamentos)
    requires t.Valid()
    ensures forall i, j :: 0 <= i < |t.linhas| && 0 <= j < |t.linhas| && t.linhas[i].id == t.linhas[j].id ==> i == j
  {
  }

  /** Appending a booking can only change the first containing booking when none was found before. */
  lemma PrimeiroQueContemAppend(ags: seq<Agendamento>, a: Agendamento, inicio: int, fim: int)
    ensures PrimeiroQueContem(ags + [a], inicio, fim)
         == if PrimeiroQueContem(ags, inicio, fim).Some? then PrimeiroQueContem(ags, inicio, fim)
            else if Contem(a, inicio, fim) then Some(|ags|)
            else None
  {
    var r, r' := PrimeiroQueContem(ags, inicio, fim), PrimeiroQueContem(ags + [a], inicio, fim);
    if r.Some? {
      assert (ags + [a])[r.value] == ags[r.value];
    } else if Contem(a, inicio, fim) {
      assert (ags + [a])[|ags|] == a;
    } else {
      assert forall j :: 0 <= j < |ags + [a]| ==> (ags + [a])[j] == if j < |ags| then ags[j] else a;
    }
  }

  /**
   * A booking made at the start of a generated slot and lasting one consultation
   * covers that slot: when the window is generated again with the booking
   * appended, the same slot is occupied, by this booking if it was free and by
   * the earlier booking otherwise.
   */
  lemma BookingOccupiesSlot(inicio: int, fim: int, duracao: int, ags: seq<Agendamento>, a: Agendamento, k: nat)
    requires duracao > 0
    requires k < |SlotsOf(inicio, fim, duracao, ags)|
    requires a.inicio == SlotsOf(inicio, fim, duracao, ags)[k].inicio
    requires a.fim == a.inicio + duracao
    ensures |SlotsOf(inicio, fim, duracao, ags + [a])| == |SlotsOf(inicio, fim, duracao, ags)|
    ensures var antes, depois := SlotsOf(inicio, fim, duracao, ags)[k], SlotsOf(inicio, fim, duracao, ags + [a])[k];
      && depois.inicio == antes.inicio
      && depois.fim == antes.fim
      && depois.ocupado
      && (antes.ocupado ==> depois.agendamentoId == antes.agendamentoId)
      && (!antes.ocupado ==> depois.agendamentoId == Some(a.id))
  {
    SlotsCount(inicio, fim, duracao, ags);
    SlotsCount(inicio, fim, duracao, ags + [a]);
    SlotAt(inicio, fim, duracao, ags, k);
    SlotAt(inicio, fim, duracao, ags + [a], k);
    var s, e := inicio + k * duracao, inicio + (k + 1) * duracao;
    assert e == a.fim;
    PrimeiroQueContemAppend(ags, a, s, e);
    assert (ags + [a])[|ags|] == a;
  }

  /**
   * Two requests for the same doctor at the same minute are both accepted and
   * the two appointments overlap: nothing checks for a conflict before insertion.
   */
  method DoubleBooking(paciente1: Paciente, paciente2: Paciente, medico: Medico, dataHora: int)
    returns (a: Agendamento, b: Agendamento)
    requires medico.duracaoConsulta > 0
    ensures a.medicoId == b.medicoId == medico.id
    ensures a.id != b.id
    ensures a.inicio < b.fim && b.inicio < a.fim
  {
    var tabela := new TabelaAgendamentos();
    var r1 := tabela.Cadastrar(Some(paciente1), Some(medico), dataHora);
    var r2 := tabela.Cadastrar(Some(paciente2), Some(medico), dataHora);
    a, b := r1.value, r2.value;
  }
}
