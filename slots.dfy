/**
 * The slot generator (`gerar_slots_agenda`): tiles one working interval into
 * back-to-back slots of one consultation length and marks each slot occupied
 * when a booking fully contains it.
 */
module Slots {
  import opened Wrappers
  import opened Entities

  /** One candidate appointment: its interval and the booking that covers it, if any. */
  datatype Slot = Slot(inicio: int, fim: int, ocupado: bool, agendamentoId: Option<int>)

  /** Booking `a` fully contains the interval from `inicio` to `fim`. */
  predicate Contem(a: Agendamento, inicio: int, fim: int) {
    a.inicio <= inicio && a.fim >= fim
  }

  /** The position of the first booking, in list order, that fully contains the interval. */
  function PrimeiroQueContem(ags: seq<Agendamento>, inicio: int, fim: int): (r: Option<nat>)
    ensures r.Some? ==> r.value < |ags| && Contem(ags[r.value], inicio, fim)
    ensures r.Some? ==> forall j :: 0 <= j < r.value ==> !Contem(ags[j], inicio, fim)
    ensures r.None? ==> forall j :: 0 <= j < |ags| ==> !Contem(ags[j], inicio, fim)
  {
    if |ags| == 0 then None
    else if Contem(ags[0], inicio, fim) then Some(0)
    else
      match PrimeiroQueContem(ags[1..], inicio, fim)
      case None => None
      case Some(k) => Some(k + 1)
  }

  /** The slot for the interval from `inicio` to `fim`, marked by the first booking that contains it. */
  function Marcar(inicio: int, fim: int, ags: seq<Agendamento>): (s: Slot)
    ensures s.inicio == inicio && s.fim == fim
  {
    match PrimeiroQueContem(ags, inicio, fim)
    case None => Slot(inicio, fim, false, None)
    case Some(k) => Slot(inicio, fim, true, Some(ags[k].id))
  }

  /**
   * A marked slot is occupied exactly when some booking contains it, and then
   * carries the id of the first such booking; otherwise it carries no id.
   */
  lemma MarcarSpec(inicio: int, fim: int, ags: seq<Agendamento>)
    ensures var s := Marcar(inicio, fim, ags);
      && (s.ocupado <==> exists j :: 0 <= j < |ags| && Contem(ags[j], inicio, fim))
      && (s.ocupado ==>
            exists j :: (0 <= j < |ags| && Contem(ags[j], inicio, fim) && s.agendamentoId == Some(ags[j].id)
                         && forall i :: 0 <= i < j ==> !Contem(ags[i], inicio, fim)))
      && (!s.ocupado ==> s.agendamentoId == None)
  {
  }

  /**
   * The generator's loop ends on this window: the consultation length is
   * positive, or not even one consultation fits, so the loop test fails at once.
   */
  predicate Termina(inicio: int, fim: int, duracao: int) {
    duracao > 0 || inicio + duracao > fim
  }

  /** The slots of the window from `inicio` to `fim`, in the order the generator emits them. */
  function SlotsOf(inicio: int, fim: int, duracao: int, ags: seq<Agendamento>): seq<Slot>
    requires Termina(inicio, fim, duracao)
    decreases fim - inicio
  {
    if inicio + duracao <= fim then
      [Marcar(inicio, inicio + duracao, ags)] + SlotsOf(inicio + duracao, fim, duracao, ags)
    else
      []
  }

  /** How many whole consultations fit into the window; none when it is inverted. */
  function NumSlots(inicio: int, fim: int, duracao: int): nat
    requires duracao > 0
  {
    if inicio <= fim then (fim - inicio) / duracao else 0
  }

  /** `s` is a slot of length `duracao` inside the window, marked as the bookings say. */
  predicate SlotValido(s: Slot, inicio: int, fim: int, duracao: int, ags: seq<Agendamento>) {
    && inicio <= s.inicio
    && s.fim <= fim
    && s.fim == s.inicio + duracao
    && s == Marcar(s.inicio, s.fim, ags)
  }

  /**
   * Emits slots from `inicio` while one more whole consultation fits before `fim`,
   * scanning the bookings for each slot and stopping at the first that contains it.
   */
  method GerarSlotsAgenda(inicio: int, fim: int, duracao: int, ags: seq<Agendamento>)
    returns (slots: seq<Slot>)
    requires Termina(inicio, fim, duracao)
    ensures slots == SlotsOf(inicio, fim, duracao, ags)
  {
    slots := [];
    var cursor := inicio;
    while cursor + duracao <= fim
      invariant Termina(cursor, fim, duracao)
      invariant slots + SlotsOf(cursor, fim, duracao, ags) == SlotsOf(inicio, fim, duracao, ags)
      decreases fim - cursor
    {
      var slotInicio := cursor;
      var slotFim := cursor + duracao;
      var slot := Slot(slotInicio, slotFim, false, None);
      var j := 0;
      while j < |ags|
        invariant 0 <= j <= |ags|
        invariant slot == Slot(slotInicio, slotFim, false, None)
        invariant forall i :: 0 <= i < j ==> !Contem(ags[i], slotInicio, slotFim)
      {
        var a := ags[j];
        if a.inicio <= slotInicio && a.fim >= slotFim {
          slot := slot.(ocupado := true, agendamentoId := Some(a.id));
          break;
        }
        j := j + 1;
      }
      assert slot == Marcar(slotInicio, slotFim, ags);
      SlotsOfStep(cursor, fim, duracao, ags, slots);
      slots := slots + [slot];
      cursor := slotFim;
    }
  }

  /** Emitting the slot at the cursor and advancing by one consultation leaves the remaining tiling unchanged. */
  lemma SlotsOfStep(cursor: int, fim: int, duracao: int, ags: seq<Agendamento>, feitos: seq<Slot>)
    requires duracao > 0 && cursor + duracao <= fim
    ensures feitos + SlotsOf(cursor, fim, duracao, ags)
         == (feitos + [Marcar(cursor, cursor + duracao, ags)]) + SlotsOf(cursor + duracao, fim, duracao, ags)
  {
  }

  /**
   * With a consultation length that is not positive, a window the loop ends on
   * has no slots: the loop test fails before the first slot.
   */
  lemma SlotsSemDuracao(inicio: int, fim: int, duracao: int, ags: seq<Agendamento>)
    requires duracao <= 0 && Termina(inicio, fim, duracao)
    ensures SlotsOf(inicio, fim, duracao, ags) == []
  {
  }

  /**
   * Outside `Termina` the generator never stops: with a consultation length that
   * is not positive and a first consultation that fits, the loop test still holds
   * after any number `n` of advances of the cursor.
   */
  lemma {:induction false} CursorNuncaPassa(inicio: int, fim: int, duracao: int, n: nat)
    requires duracao <= 0 && inicio + duracao <= fim
    ensures (inicio + n * duracao) + duracao <= fim
    decreases n
  {
    if n > 0 {
      CursorNuncaPassa(inicio, fim, duracao, n - 1);
      assert inicio + n * duracao == inicio + (n - 1) * duracao + duracao;
    }
  }

  /** A positive multiple of a positive number is at least that number. */
  lemma {:induction false} MulAtLeast(n: int, d: int)
    requires n >= 1 && d > 0
    ensures n * d >= d
    decreases n
  {
    if n > 1 {
      MulAtLeast(n - 1, d);
      assert n * d == (n - 1) * d + d;
    }
  }

  /** Euclidean division has one quotient: the one whose remainder lies in [0, d). */
  lemma DivUnique(x: int, d: int, q: int, r: int)
    requires d > 0 && 0 <= r < d && x == q * d + r
    ensures x / d == q
  {
    var q0, r0 := x / d, x % d;
    assert x == q0 * d + r0 && 0 <= r0 < d;
    assert (q0 - q) * d == q0 * d - q * d;
    assert (q - q0) * d == q * d - q0 * d;
    if q0 > q {
      MulAtLeast(q0 - q, d);
      assert false;
    } else if q0 < q {
      MulAtLeast(q - q0, d);
      assert false;
    }
  }

  /** Taking one consultation off a window of at least one consultation removes one from the quotient. */
  lemma DivStep(x: int, d: int)
    requires d > 0 && x >= d
    ensures x / d == (x - d) / d + 1
  {
    var q, r := (x - d) / d, (x - d) % d;
    assert x - d == q * d + r;
    assert x == (q + 1) * d + r;
    DivUnique(x, d, q + 1, r);
  }

  /** The window holds exactly ⌊(fim − inicio) / duracao⌋ slots, and none when it is shorter than one. */
  lemma {:induction false} SlotsCount(inicio: int, fim: int, duracao: int, ags: seq<Agendamento>)
    requires duracao > 0
    ensures |SlotsOf(inicio, fim, duracao, ags)| == NumSlots(inicio, fim, duracao)
    ensures fim - inicio < duracao ==> SlotsOf(inicio, fim, duracao, ags) == []
    decreases fim - inicio
  {
    if inicio + duracao <= fim {
      SlotsCount(inicio + duracao, fim, duracao, ags);
      DivStep(fim - inicio, duracao);
    }
  }

  /** The `k`-th slot starts `k` consultations after the window start and is marked as the bookings say. */
  lemma {:induction false} SlotAt(inicio: int, fim: int, duracao: int, ags: seq<Agendamento>, k: nat)
    requires duracao > 0
    requires k < |SlotsOf(inicio, fim, duracao, ags)|
    ensures inicio + (k + 1) * duracao <= fim
    ensures SlotsOf(inicio, fim, duracao, ags)[k]
         == Marcar(inicio + k * duracao, inicio + (k + 1) * duracao, ags)
    decreases k
  {
    if k > 0 {
      SlotAt(inicio + duracao, fim, duracao, ags, k - 1);
      assert inicio + duracao + (k - 1) * duracao == inicio + k * duracao;
      assert inicio + duracao + k * duracao == inicio + (k + 1) * duracao;
    }
  }

  /**
   * The slots tile the window: the first starts at the window start, each lasts
   * exactly one consultation, each later one starts where the previous ended,
   * and every slot lies inside the window.
   */
  lemma SlotsTileWindow(inicio: int, fim: int, duracao: int, ags: seq<Agendamento>)
    requires duracao > 0
    ensures var r := SlotsOf(inicio, fim, duracao, ags);
      && (|r| > 0 ==> r[0].inicio == inicio)
      && (forall k :: 0 <= k < |r| ==> r[k].fim == r[k].inicio + duracao)
      && (forall k :: 0 <= k < |r| ==> inicio <= r[k].inicio && r[k].fim <= fim)
      && (forall k :: 0 < k < |r| ==> r[k].inicio == r[k - 1].fim)
  {
    var r := SlotsOf(inicio, fim, duracao, ags);
    forall k | 0 <= k < |r|
      ensures r[k].inicio == inicio + k * duracao && r[k].fim == r[k].inicio + duracao
      ensures inicio <= r[k].inicio && r[k].fim <= fim
    {
      SlotAt(inicio, fim, duracao, ags, k);
      assert inicio + (k + 1) * duracao == inicio + k * duracao + duracao;
    }
    forall k | 0 < k < |r|
      ensures r[k].inicio == r[k - 1].fim
    {
      assert r[k].inicio == inicio + k * duracao;
      assert r[k - 1].inicio == inicio + (k - 1) * duracao;
      assert inicio + (k - 1) * duracao + duracao == inicio + k * duracao;
    }
  }

  /**
   * A slot is occupied exactly when some booking fully contains it, and then it
   * carries the id of the first such booking in list order; otherwise it is free
   * with no booking id. A booking that only partly overlaps a slot does not count.
   */
  lemma SlotsMarking(inicio: int, fim: int, duracao: int, ags: seq<Agendamento>)
    requires duracao > 0
    ensures var r := SlotsOf(inicio, fim, duracao, ags);
      forall k :: 0 <= k < |r| ==>
        && (r[k].ocupado <==> exists j :: 0 <= j < |ags| && Contem(ags[j], r[k].inicio, r[k].fim))
        && (r[k].ocupado ==>
              exists j :: (0 <= j < |ags| && Contem(ags[j], r[k].inicio, r[k].fim)
                           && r[k].agendamentoId == Some(ags[j].id)
                           && forall i :: 0 <= i < j ==> !Contem(ags[i], r[k].inicio, r[k].fim)))
        && (!r[k].ocupado ==> r[k].agendamentoId == None)
  {
    var r := SlotsOf(inicio, fim, duracao, ags);
    forall k | 0 <= k < |r|
      ensures r[k] == Marcar(r[k].inicio, r[k].fim, ags)
    {
      SlotAt(inicio, fim, duracao, ags, k);
    }
  }

  /** Every generated slot is a valid slot of the window: inside it, one consultation long, correctly marked. */
  lemma SlotsValid(inicio: int, fim: int, duracao: int, ags: seq<Agendamento>)
    requires duracao > 0
    ensures forall s :: s in SlotsOf(inicio, fim, duracao, ags) ==> SlotValido(s, inicio, fim, duracao, ags)
  {
    var r := SlotsOf(inicio, fim, duracao, ags);
    SlotsTileWindow(inicio, fim, duracao, ags);
    forall s | s in r
      ensures SlotValido(s, inicio, fim, duracao, ags)
    {
      var k :| 0 <= k < |r| && r[k] == s;
      SlotAt(inicio, fim, duracao, ags, k);
    }
  }

  /** Window 08:00 to 12:00, 30-minute consultations, no bookings: eight free slots, 08:00-08:30 up to 11:30-12:00. */
  lemma ScenarioFreeMorning()
    ensures var r := SlotsOf(480, 720, 30, []);
      |r| == 8 && forall k :: 0 <= k < 8 ==> r[k] == Slot(480 + 30 * k, 510 + 30 * k, false, None)
  {
    SlotsCount(480, 720, 30, []);
    forall k | 0 <= k < 8
      ensures SlotsOf(480, 720, 30, [])[k] == Slot(480 + 30 * k, 510 + 30 * k, false, None)
    {
      SlotAt(480, 720, 30, [], k);
    }
  }

  /** The same window with one booking from 09:00 to 09:30: only the 09:00-09:30 slot is occupied, by that booking. */
  lemma ScenarioOneBooking(id: int)
    ensures var ags := [Agendamento(id, 1, 1, 540, 570, StatusConfirmado)];
      var r := SlotsOf(480, 720, 30, ags);
      && |r| == 8
      && r[2] == Slot(540, 570, true, Some(id))
      && forall k :: 0 <= k < 8 && k != 2 ==> r[k] == Slot(480 + 30 * k, 510 + 30 * k, false, None)
  {
    var ags := [Agendamento(id, 1, 1, 540, 570, StatusConfirmado)];
    SlotsCount(480, 720, 30, ags);
    forall k | 0 <= k < 8
      ensures SlotsOf(480, 720, 30, ags)[k] == Marcar(480 + 30 * k, 510 + 30 * k, ags)
    {
      SlotAt(480, 720, 30, ags, k);
    }
    assert Contem(ags[0], 540, 570);
  }

  /** A booking from 09:15 to 09:45 only partly overlaps two slots, so every slot stays free. */
  lemma ScenarioPartialOverlap(id: int)
    ensures var ags := [Agendamento(id, 1, 1, 555, 585, StatusConfirmado)];
      var r := SlotsOf(480, 720, 30, ags);
      |r| == 8 && forall k :: 0 <= k < 8 ==> !r[k].ocupado && r[k].agendamentoId == None
  {
    var ags := [Agendamento(id, 1, 1, 555, 585, StatusConfirmado)];
    SlotsCount(480, 720, 30, ags);
    forall k | 0 <= k < 8
      ensures SlotsOf(480, 720, 30, ags)[k] == Marcar(480 + 30 * k, 510 + 30 * k, ags)
    {
      SlotAt(480, 720, 30, ags, k);
    }
  }
}
