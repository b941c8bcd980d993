/**
 * The agenda builder (`gerar_agenda`): for each availability record of the
 * requested weekday, in the given order, the morning slots and then the
 * afternoon slots of that day, all concatenated into one list.
 */
module Agenda {
  import opened Wrappers
  import opened Entities
  import opened Slots

  /** The generator's loop ends on both windows of record `h` placed on the day starting at minute `data`. */
  predicate HorarioTermina(h: HorarioMedico, data: int, duracao: int) {
    Termina(data + h.inicioManha, data + h.fimManha, duracao)
    && Termina(data + h.inicioTarde, data + h.fimTarde, duracao)
  }

  /** The generator's loop ends on every window of every record. */
  predicate JanelasTerminam(hs: seq<HorarioMedico>, data: int, duracao: int) {
    forall i :: 0 <= i < |hs| ==> HorarioTermina(hs[i], data, duracao)
  }

  /** The slots one availability record contributes on the day starting at minute `data`: morning, then afternoon. */
  function SlotsDoHorario(h: HorarioMedico, data: int, duracao: int, ags: seq<Agendamento>): seq<Slot>
    requires HorarioTermina(h, data, duracao)
  {
    SlotsOf(data + h.inicioManha, data + h.fimManha, duracao, ags)
    + SlotsOf(data + h.inicioTarde, data + h.fimTarde, duracao, ags)
  }

  /** The agenda of the day: each record's slots, records taken in list order. */
  function AgendaOf(hs: seq<HorarioMedico>, data: int, duracao: int, ags: seq<Agendamento>): seq<Slot>
    requires JanelasTerminam(hs, data, duracao)
  {
    if |hs| == 0 then []
    else AgendaOf(hs[..|hs| - 1], data, duracao, ags) + SlotsDoHorario(hs[|hs| - 1], data, duracao, ags)
  }

  /** How many slots the records yield, adding up the per-window counts. */
  function TotalSlots(hs: seq<HorarioMedico>, data: int, duracao: int): nat
    requires duracao > 0
  {
    if |hs| == 0 then 0
    else
      var h := hs[|hs| - 1];
      TotalSlots(hs[..|hs| - 1], data, duracao)
      + NumSlots(data + h.inicioManha, data + h.fimManha, duracao)
      + NumSlots(data + h.inicioTarde, data + h.fimTarde, duracao)
  }

  /** `s` is a slot of the morning or of the afternoon window of record `h`. */
  predicate DoHorario(s: Slot, h: HorarioMedico, data: int, duracao: int, ags: seq<Agendamento>) {
    || SlotValido(s, data + h.inicioManha, data + h.fimManha, duracao, ags)
    || SlotValido(s, data + h.inicioTarde, data + h.fimTarde, duracao, ags)
  }

  /**
   * Accumulates, record by record, the morning slots and then the afternoon
   * slots, each window placed on the requested day.
   */
  method GerarAgenda(hs: seq<HorarioMedico>, ags: seq<Agendamento>, duracao: int, data: int)
    returns (agenda: seq<Slot>)
    requires JanelasTerminam(hs, data, duracao)
    ensures agenda == AgendaOf(hs, data, duracao, ags)
  {
    agenda := [];
    for i := 0 to |hs|
      invariant agenda == AgendaOf(hs[..i], data, duracao, ags)
    {
      var h := hs[i];
      var inicio := data + h.inicioManha;
      var fim := data + h.fimManha;
      var manha := GerarSlotsAgenda(inicio, fim, duracao, ags);
      AgendaOfSnoc(hs, i, data, duracao, ags, agenda, manha);
      agenda := agenda + manha;

      inicio := data + h.inicioTarde;
      fim := data + h.fimTarde;
      var tarde := GerarSlotsAgenda(inicio, fim, duracao, ags);
      agenda := agenda + tarde;
    }
    assert hs[..|hs|] == hs;
  }

  /** One more record extends the agenda by that record's morning and then afternoon slots. */
  lemma AgendaOfSnoc(hs: seq<HorarioMedico>, i: nat, data: int, duracao: int, ags: seq<Agendamento>,
                     antes: seq<Slot>, manha: seq<Slot>)
    requires JanelasTerminam(hs, data, duracao) && i < |hs|
    requires antes == AgendaOf(hs[..i], data, duracao, ags)
    requires manha == SlotsOf(data + hs[i].inicioManha, data + hs[i].fimManha, duracao, ags)
    ensures AgendaOf(hs[..i + 1], data, duracao, ags)
         == antes + manha + SlotsOf(data + hs[i].inicioTarde, data + hs[i].fimTarde, duracao, ags)
  {
    var prefixo := hs[..i + 1];
    assert prefixo[..|prefixo| - 1] == hs[..i] && prefixo[|prefixo| - 1] == hs[i];
  }

  /** The agenda of two record lists in a row is the first list's agenda followed by the second's. */
  lemma {:induction false} AgendaConcat(hs1: seq<HorarioMedico>, hs2: seq<HorarioMedico>, data: int, duracao: int, ags: seq<Agendamento>)
    requires duracao > 0
    ensures AgendaOf(hs1 + hs2, data, duracao, ags) == AgendaOf(hs1, data, duracao, ags) + AgendaOf(hs2, data, duracao, ags)
    decreases |hs2|
  {
    if hs2 != [] {
      var init := hs2[..|hs2| - 1];
      assert (hs1 + hs2)[..|hs1 + hs2| - 1] == hs1 + init;
      assert (hs1 + hs2)[|hs1 + hs2| - 1] == hs2[|hs2| - 1];
      AgendaConcat(hs1, init, data, duracao, ags);
    } else {
      assert hs1 + hs2 == hs1;
    }
  }

  /**
   * The agenda is the concatenation, over the records in input order, of each
   * record's morning slots followed by its afternoon slots; no records give no slots.
   */
  lemma AgendaByRecord(h: HorarioMedico, hs: seq<HorarioMedico>, data: int, duracao: int, ags: seq<Agendamento>)
    requires duracao > 0
    ensures AgendaOf([], data, duracao, ags) == []
    ensures AgendaOf([h] + hs, data, duracao, ags)
         == SlotsOf(data + h.inicioManha, data + h.fimManha, duracao, ags)
          + SlotsOf(data + h.inicioTarde, data + h.fimTarde, duracao, ags)
          + AgendaOf(hs, data, duracao, ags)
  {
    AgendaConcat([h], hs, data, duracao, ags);
    assert [h][..0] == [];
  }

  /** The agenda's length is the sum of the per-window slot counts. */
  lemma {:induction false} AgendaCount(hs: seq<HorarioMedico>, data: int, duracao: int, ags: seq<Agendamento>)
    requires duracao > 0
    ensures |AgendaOf(hs, data, duracao, ags)| == TotalSlots(hs, data, duracao)
    decreases |hs|
  {
    if hs != [] {
      var h := hs[|hs| - 1];
      AgendaCount(hs[..|hs| - 1], data, duracao, ags);
      SlotsCount(data + h.inicioManha, data + h.fimManha, duracao, ags);
      SlotsCount(data + h.inicioTarde, data + h.fimTarde, duracao, ags);
    }
  }

  /**
   * Every agenda slot comes from one of the records: it lies inside that record's
   * morning or afternoon window, lasts one consultation, and is marked occupied
   * exactly when a booking contains it.
   */
  lemma {:induction false} AgendaSlotsFromRecords(hs: seq<HorarioMedico>, data: int, duracao: int, ags: seq<Agendamento>)
    requires duracao > 0
    ensures forall s :: s in AgendaOf(hs, data, duracao, ags) ==>
      exists h :: h in hs && DoHorario(s, h, data, duracao, ags)
    decreases |hs|
  {
    if hs != [] {
      var init, h := hs[..|hs| - 1], hs[|hs| - 1];
      AgendaSlotsFromRecords(init, data, duracao, ags);
      SlotsValid(data + h.inicioManha, data + h.fimManha, duracao, ags);
      SlotsValid(data + h.inicioTarde, data + h.fimTarde, duracao, ags);
      forall s | s in AgendaOf(hs, data, duracao, ags)
        ensures exists h' :: h' in hs && DoHorario(s, h', data, duracao, ags)
      {
        if s in AgendaOf(init, data, duracao, ags) {
          var h' :| h' in init && DoHorario(s, h', data, duracao, ags);
          assert h' in hs;
        } else {
          assert h in hs && DoHorario(s, h, data, duracao, ags);
        }
      }
    }
  }

  /**
   * With a consultation length that is not positive, records whose windows the
   * generator's loop ends on give no slots at all; in particular an empty record
   * list gives an empty agenda whatever the length.
   */
  lemma {:induction false} AgendaSemDuracao(hs: seq<HorarioMedico>, data: int, duracao: int, ags: seq<Agendamento>)
    requires duracao <= 0 && JanelasTerminam(hs, data, duracao)
    ensures AgendaOf(hs, data, duracao, ags) == []
    decreases |hs|
  {
    if hs != [] {
      var h := hs[|hs| - 1];
      AgendaSemDuracao(hs[..|hs| - 1], data, duracao, ags);
      SlotsSemDuracao(data + h.inicioManha, data + h.fimManha, duracao, ags);
      SlotsSemDuracao(data + h.inicioTarde, data + h.fimTarde, duracao, ags);
    }
  }

  /**
   * One record for the day, 08:00 to 12:00 and 13:00 to 17:00, with 30-minute
   * consultations: sixteen slots, the eight morning ones first.
   */
  lemma ScenarioOneRecord(data: int, ags: seq<Agendamento>)
    ensures var h := HorarioMedico("Segunda-feira", 480, 720, 780, 1020);
      var agenda := AgendaOf([h], data, 30, ags);
      && |agenda| == 16
      && agenda[..8] == SlotsOf(data + 480, data + 720, 30, ags)
      && agenda[8..] == SlotsOf(data + 780, data + 1020, 30, ags)
  {
    var h := HorarioMedico("Segunda-feira", 480, 720, 780, 1020);
    AgendaByRecord(h, [], data, 30, ags);
    assert [h] + [] == [h];
    SlotsCount(data + 480, data + 720, 30, ags);
    SlotsCount(data + 780, data + 1020, 30, ags);
  }
}
