/**
 * The storage entities and the two data-transfer records the controller uses.
 * A work order (`Munkalap`) is held already joined to its location (`Hely`)
 * and technician (`Szerelo`), as the eager `Include` calls load it.
 */
module Models {
  import opened Converters

  /** A location: a town and a street. */
  datatype Hely = Hely(id: int, telepules: string, utca: string)

  /** A technician. */
  datatype Szerelo = Szerelo(id: int, nev: string)

  /** Labour hours and material cost: values the projection only copies. */
  type Amount = real

  /**
   * A work order with its foreign keys and, beside them, the location and
   * technician rows they refer to.
   */
  datatype Munkalap = Munkalap(
    id: int,
    hely_id: int,
    szerelo_id: int,
    beadas_datum: DateOnly,
    javitas_datum: DateOnly,
    munkaora: Amount,
    anyagar: Amount,
    hely: Hely,
    szerelo: Szerelo)

  /** The request body of the search: a location id and a technician id. */
  datatype MunkalapKeresesDto = MunkalapKeresesDto(helyszin_id: int, szerelo_id: int)

  /** The client-facing, flattened view of one work order. */
  datatype MunkalapDto = MunkalapDto(
    id: int,
    beadas_datum: DateTime,
    javitas_datum: DateTime,
    helyszin: string,
    szerelo: string,
    munkaora: Amount,
    anyagar: Amount)

  /** `id` is the primary key of the work-order table: no two rows share it. */
  predicate UniqueIds(table: seq<Munkalap>) {
    forall i, j :: 0 <= i < |table| && 0 <= j < |table| && table[i].id == table[j].id ==> i == j
  }

  /** Each row's joined location and technician are the ones its foreign keys name. */
  predicate JoinsResolved(table: seq<Munkalap>) {
    forall m :: m in table ==> m.hely.id == m.hely_id && m.szerelo.id == m.szerelo_id
  }
}
