/**
 * Registration of doctors and patients (`cadastrar_medico`,
 * `cadastrar_paciente`): check-then-insert against the unique columns, the
 * email first and then the CRM or the CPF, with a failed registration leaving
 * every table as it was.
 */
module Registry {
  import opened Wrappers
  import opened Entities
  import Agenda

  /** Why a registration is refused. */
  datatype ErroCadastro = EmailDuplicado | CrmDuplicado | CpfDuplicado

  /** The emails in use by the persons `us`. */
  function EmailsOf(us: seq<Usuario>): set<string> {
    set u | u in us :: u.email
  }

  /** The CRMs in use by the doctors `ms`. */
  function CrmsOf(ms: seq<Medico>): set<string> {
    set m | m in ms :: m.crm
  }

  /** The CPFs in use by the patients `ps`. */
  function CpfsOf(ps: seq<Paciente>): set<string> {
    set p | p in ps :: p.cpf
  }

  /** Ids follow the row order in every table. */
  ghost predicate IdsInOrder(us: seq<Usuario>, ms: seq<Medico>, ps: seq<Paciente>) {
    && (forall i :: 0 <= i < |us| ==> us[i].id == i + 1)
    && (forall i :: 0 <= i < |ms| ==> ms[i].id == i + 1)
    && (forall i :: 0 <= i < |ps| ==> ps[i].id == i + 1)
  }

  /** Email, CRM and CPF are each unique in their table. */
  ghost predicate UniqueKeys(us: seq<Usuario>, ms: seq<Medico>, ps: seq<Paciente>) {
    && (forall i, j :: 0 <= i < j < |us| ==> us[i].email != us[j].email)
    && (forall i, j :: 0 <= i < j < |ms| ==> ms[i].crm != ms[j].crm)
    && (forall i, j :: 0 <= i < j < |ps| ==> ps[i].cpf != ps[j].cpf)
  }

  /** Every doctor and patient points to an existing person of its own, and no person is left without one. */
  ghost predicate PersonsLinked(us: seq<Usuario>, ms: seq<Medico>, ps: seq<Paciente>) {
    && (forall i :: 0 <= i < |ms| ==> 1 <= ms[i].usuarioId <= |us|)
    && (forall i :: 0 <= i < |ps| ==> 1 <= ps[i].usuarioId <= |us|)
    && (forall i, j :: 0 <= i < j < |ms| ==> ms[i].usuarioId != ms[j].usuarioId)
    && (forall i, j :: 0 <= i < j < |ps| ==> ps[i].usuarioId != ps[j].usuarioId)
    && (forall i, j :: 0 <= i < |ms| && 0 <= j < |ps| ==> ms[i].usuarioId != ps[j].usuarioId)
    && |us| == |ms| + |ps|
  }

  /** The tables' invariant: ordered ids, unique keys, and every person linked to exactly one doctor or patient. */
  ghost predicate TablesValid(us: seq<Usuario>, ms: seq<Medico>, ps: seq<Paciente>) {
    IdsInOrder(us, ms, ps) && UniqueKeys(us, ms, ps) && PersonsLinked(us, ms, ps)
  }

  /** Appending a person adds exactly its email to the emails in use. */
  lemma EmailsOfAppend(us: seq<Usuario>, u: Usuario)
    ensures EmailsOf(us + [u]) == EmailsOf(us) + {u.email}
  {
    assert forall x :: x in us + [u] <==> x in us || x == u;
  }

  /** Appending a doctor adds exactly its CRM to the CRMs in use. */
  lemma CrmsOfAppend(ms: seq<Medico>, m: Medico)
    ensures CrmsOf(ms + [m]) == CrmsOf(ms) + {m.crm}
  {
    assert forall x :: x in ms + [m] <==> x in ms || x == m;
  }

  /** Appending a patient adds exactly its CPF to the CPFs in use. */
  lemma CpfsOfAppend(ps: seq<Paciente>, p: Paciente)
    ensures CpfsOf(ps + [p]) == CpfsOf(ps) + {p.cpf}
  {
    assert forall x :: x in ps + [p] <==> x in ps || x == p;
  }

  /**
   * Inserting a person with an unused email and a doctor with an unused CRM,
   * linked to that new person, keeps the tables' invariant.
   */
  lemma InsertMedicoValid(us: seq<Usuario>, ms: seq<Medico>, ps: seq<Paciente>, u: Usuario, m: Medico)
    requires TablesValid(us, ms, ps)
    requires u.email !in EmailsOf(us) && m.crm !in CrmsOf(ms)
    requires u.id == |us| + 1 && m.id == |ms| + 1 && m.usuarioId == u.id
    ensures TablesValid(us + [u], ms + [m], ps)
  {
    var us', ms' := us + [u], ms + [m];
    forall i | 0 <= i < |us|
      ensures us'[i].email != u.email
    {
      assert us[i] in us;
    }
    forall i | 0 <= i < |ms|
      ensures ms'[i].crm != m.crm && ms'[i].usuarioId != m.usuarioId
    {
      assert ms[i] in ms;
    }
    assert IdsInOrder(us', ms', ps);
    assert UniqueKeys(us', ms', ps);
    assert PersonsLinked(us', ms', ps);
  }

  /**
   * Inserting a person with an unused email and a patient with an unused CPF,
   * linked to that new person, keeps the tables' invariant.
   */
  lemma InsertPacienteValid(us: seq<Usuario>, ms: seq<Medico>, ps: seq<Paciente>, u: Usuario, p: Paciente)
    requires TablesValid(us, ms, ps)
    requires u.email !in EmailsOf(us) && p.cpf !in CpfsOf(ps)
    requires u.id == |us| + 1 && p.id == |ps| + 1 && p.usuarioId == u.id
    ensures TablesValid(us + [u], ms, ps + [p])
  {
    var us', ps' := us + [u], ps + [p];
    forall i | 0 <= i < |us|
      ensures us'[i].email != u.email
    {
      assert us[i] in us;
    }
    forall i | 0 <= i < |ps|
      ensures ps'[i].cpf != p.cpf && ps'[i].usuarioId != p.usuarioId
    {
      assert ps[i] in ps;
    }
    assert IdsInOrder(us', ms, ps');
    assert UniqueKeys(us', ms, ps');
    assert PersonsLinked(us', ms, ps');
  }

  /** The person, doctor and patient tables; rows are never deleted, so row `i` has id `i + 1`. */
  class Banco {
    var usuarios: seq<Usuario>
    var medicos: seq<Medico>
    var pacientes: seq<Paciente>

    ghost predicate Valid()
      reads this
    {
      TablesValid(usuarios, medicos, pacientes)
    }

    constructor ()
      ensures Valid() && usuarios == [] && medicos == [] && pacientes == []
    {
      usuarios, medicos, pacientes := [], [], [];
    }

    /**
     * Registers a doctor. A used email is reported first, even when the CRM is
     * used too; then a used CRM. On refusal nothing changes; on success one
     * person and one doctor linked to it are added, and nothing else.
     */
    method CadastrarMedico(nome: string, email: string, especialidade: string, crm: string, duracaoConsulta: int)
      returns (r: Result<Medico, ErroCadastro>)
      requires Valid()
      modifies this
      ensures Valid()
      ensures email in EmailsOf(old(usuarios)) ==> r == Err(EmailDuplicado)
      ensures email !in EmailsOf(old(usuarios)) && crm in CrmsOf(old(medicos)) ==> r == Err(CrmDuplicado)
      ensures email !in EmailsOf(old(usuarios)) && crm !in CrmsOf(old(medicos)) ==> r.Ok?
      ensures r.Err? ==> usuarios == old(usuarios) && medicos == old(medicos) && pacientes == old(pacientes)
      ensures r.Ok? ==>
        && usuarios == old(usuarios) + [Usuario(|old(usuarios)| + 1, nome, email)]
        && medicos == old(medicos) + [r.value]
        && r.value == Medico(|old(medicos)| + 1, especialidade, crm, duracaoConsulta, |old(usuarios)| + 1)
        && pacientes == old(pacientes)
      ensures r.Ok? ==>
        && EmailsOf(usuarios) == EmailsOf(old(usuarios)) + {email}
        && CrmsOf(medicos) == CrmsOf(old(medicos)) + {crm}
        && CpfsOf(pacientes) == CpfsOf(old(pacientes))
    {
      if email in EmailsOf(usuarios) {
        return Err(EmailDuplicado);
      }
      if crm in CrmsOf(medicos) {
        return Err(CrmDuplicado);
      }
      var usuario := Usuario(|usuarios| + 1, nome, email);
      var medico := Medico(|medicos| + 1, especialidade, crm, duracaoConsulta, usuario.id);
      InsertMedicoValid(usuarios, medicos, pacientes, usuario, medico);
      EmailsOfAppend(usuarios, usuario);
      CrmsOfAppend(medicos, medico);
      usuarios := usuarios + [usuario];
      medicos := medicos + [medico];
      r := Ok(medico);
    }

    /**
     * Registers a patient. A used email is reported first, even when the CPF is
     * used too; then a used CPF. On refusal nothing changes; on success one
     * person and one patient linked to it are added, and nothing else.
     */
    method CadastrarPaciente(nome: string, email: string, cpf: string, endereco: string)
      returns (r: Result<Paciente, ErroCadastro>)
      requires Valid()
      modifies this
      ensures Valid()
      ensures email in EmailsOf(old(usuarios)) ==> r == Err(EmailDuplicado)
      ensures email !in EmailsOf(old(usuarios)) && cpf in CpfsOf(old(pacientes)) ==> r == Err(CpfDuplicado)
      ensures email !in EmailsOf(old(usuarios)) && cpf !in CpfsOf(old(pacientes)) ==> r.Ok?
      ensures r.Err? ==> usuarios == old(usuarios) && medicos == old(medicos) && pacientes == old(pacientes)
      ensures r.Ok? ==>
        && usuarios == old(usuarios) + [Usuario(|old(usuarios)| + 1, nome, email)]
        && pacientes == old(pacientes) + [r.value]
        && r.value == Paciente(|old(pacientes)| + 1, cpf, endereco, |old(usuarios)| + 1)
        && medicos == old(medicos)
      ensures r.Ok? ==>
        && EmailsOf(usuarios) == EmailsOf(old(usuarios)) + {email}
        && CpfsOf(pacientes) == CpfsOf(old(pacientes)) + {cpf}
        && CrmsOf(medicos) == CrmsOf(old(medicos))
    {
      if email in EmailsOf(usuarios) {
        return Err(EmailDuplicado);
      }
      if cpf in CpfsOf(pacientes) {
        return Err(CpfDuplicado);
      }
      var usuario := Usuario(|usuarios| + 1, nome, email);
      var paciente := Paciente(|pacientes| + 1, cpf, endereco, usuario.id);
      InsertPacienteValid(usuarios, medicos, pacientes, usuario, paciente);
      EmailsOfAppend(usuarios, usuario);
      CpfsOfAppend(pacientes, paciente);
      usuarios := usuarios + [usuario];
      pacientes := pacientes + [paciente];
      r := Ok(paciente);
    }
  }

  /**
   * On an empty database: a doctor registers; a second doctor with a new email
   * but the same CRM is refused for the CRM; a third with both the same email
   * and the same CRM is refused for the email. Each refusal leaves one person
   * and one doctor stored.
   */
  method ScenarioDuplicateCrm() returns (primeiro: Result<Medico, ErroCadastro>, mesmoCrm: Result<Medico, ErroCadastro>,
                                         ambos: Result<Medico, ErroCadastro>, usuarios: nat, medicos: nat)
    ensures primeiro.Ok? && primeiro.value.crm == "206704"
    ensures mesmoCrm == Err(CrmDuplicado)
    ensures ambos == Err(EmailDuplicado)
    ensures usuarios == 1 && medicos == 1
  {
    var banco := new Banco();
    primeiro := banco.CadastrarMedico("Ana", "ana@example.org", "Dermatologia", "206704", 30);
    EmailsOfAppend([], Usuario(1, "Ana", "ana@example.org"));
    CrmsOfAppend([], primeiro.value);
    mesmoCrm := banco.CadastrarMedico("Bia", "bia@example.org", "Cardiologia", "206704", 20);
    ambos := banco.CadastrarMedico("Ana", "ana@example.org", "Dermatologia", "206704", 30);
    usuarios, medicos := |banco.usuarios|, |banco.medicos|;
  }

  /**
   * Registration accepts any consultation length, zero included. The usual
   * weekday record 08:00-12:00 / 13:00-17:00 is then outside what the slot
   * generator's loop ends on, so asking for that doctor's agenda on a day with
   * such a record never returns (`Slots.CursorNuncaPassa`).
   */
  method ScenarioDuracaoZero(data: int) returns (r: Result<Medico, ErroCadastro>)
    ensures r.Ok? && r.value.duracaoConsulta == 0
    ensures !Agenda.HorarioTermina(HorarioMedico("Segunda-feira", 480, 720, 780, 1020), data, r.value.duracaoConsulta)
  {
    var banco := new Banco();
    r := banco.CadastrarMedico("Ana", "ana@example.org", "Dermatologia", "206704", 0);
  }
}
