/**
 * The persistent records of the scheduling service (the model package), as values.
 * Every time is an integer number of minutes on one timeline; a calendar day
 * is identified by the minute of its midnight, so combining a date with a
 * time of day is an addition.
 */
module Entities {

  /** A person record (model/usuario.py); the email is unique across all persons. */
  datatype Usuario = Usuario(id: int, nome: string, email: string)

  /** A doctor (model/medico.py), linked to its person record by `usuarioId`. */
  datatype Medico = Medico(
    id: int,
    especialidade: string,
    crm: string,
    duracaoConsulta: int,
    usuarioId: int)

  /** A patient (model/paciente.py), linked to its person record by `usuarioId`. */
  datatype Paciente = Paciente(id: int, cpf: string, endereco: string, usuarioId: int)

  /**
   * A weekly availability record (model/horario_medico.py): a weekday name and a
   * morning and an afternoon interval, each as minutes after midnight.
   */
  datatype HorarioMedico = HorarioMedico(
    diaSemana: string,
    inicioManha: int,
    fimManha: int,
    inicioTarde: int,
    fimTarde: int)

  /** A committed appointment (model/agendamento.py); `inicio` and `fim` are absolute minutes. */
  datatype Agendamento = Agendamento(
    id: int,
    medicoId: int,
    pacienteId: int,
    inicio: int,
    fim: int,
    status: string)

  /** The status column's default value. */
  const StatusConfirmado: string := "confirmado"
}
