/**
 * The rows the calculation reads and writes: one absence per row of the
 * uploaded sheet (columns MAT., FUNCIONÁRIO, DIA DO AFASTAMENTO,
 * DATA DO RETORNO, CID/MOTIVO, already parsed), and one entitlement per
 * employee in the result (MATRICULA, NOME, TOTAL_DIAS_DESCONTO,
 * DIAS_DE_DIREITO, JUSTIFICATIVA_DESCONTO). An empty cell is None.
 */
module Records {
  import opened Wrappers
  import opened Calendar

  datatype Absence = Absence(
    id: Option<int>,          // MAT., the employee's registration number
    name: Option<string>,     // FUNCIONÁRIO
    start: Option<Day>,       // DIA DO AFASTAMENTO, the first day of leave
    ret: Option<Day>,         // DATA DO RETORNO, the day the employee is back at work
    reason: Option<string>)   // CID/MOTIVO, free text

  /**
   * A row of the sheet once the two computed columns are added: the days
   * charged (DIAS_UTEIS_DESCONTO) and the description (DESCRICAO).
   */
  datatype Charged = Charged(
    id: Option<int>,
    name: Option<string>,
    days: nat,
    description: Option<string>)

  datatype Entitlement = Entitlement(
    id: int,
    name: Option<string>,
    totalDays: nat,           // business days charged over all the employee's absences
    entitledDays: nat,        // days of benefit for the month
    justification: string)
}
