/** `DataValidationError`, the one error the deserialisers raise, and the
    shape of a deserialisation that updates an object in place. */
module Validation {
  import opened Wrappers

  /** Which record's deserialiser raised the error. */
  datatype Entity = ProductEntity | ShopcartEntity

  /** A `DataValidationError`: either a required key was missing from the
      mapping (`KeyError`), or the input could not be indexed or iterated
      at all (`TypeError`). */
  datatype ValidationError =
    | Missing(entity: Entity, key: string)
    | BadOrNoData(entity: Entity)

  function EntityName(e: Entity): string {
    match e
    case ProductEntity => "Product"
    case ShopcartEntity => "Shopcart"
  }

  /** The error's message text. For `BadOrNoData` the interpreter's own
      `TypeError` wording, which the source appends, is not modelled. */
  function Message(err: ValidationError): (msg: string)
    ensures err.Missing? ==> |err.key| <= |msg| && msg[|msg| - |err.key|..] == err.key
  {
    Head(err.entity) + Detail(err)
  }

  function Head(e: Entity): string {
    "Invalid " + EntityName(e) + ": "
  }

  function Detail(err: ValidationError): string {
    match err
    case Missing(_, k) => "missing " + k
    case BadOrNoData(_) => "body of request contained bad or no data"
  }

  /** Different errors never share a message: the text alone tells which
      record failed, whether a key was missing, and which key. */
  lemma MessageInjective(e1: ValidationError, e2: ValidationError)
    ensures Message(e1) == Message(e2) <==> e1 == e2
  {
    if Message(e1) == Message(e2) {
      HeadDetermines(e1.entity, e2.entity, Detail(e1), Detail(e2));
      var head := Head(e1.entity);
      assert Message(e1) == head + Detail(e1);
      assert Detail(e1) == Message(e1)[|head|..];
      DetailInjective(e1, e2);
    }
  }

  lemma HeadDetermines(a: Entity, b: Entity, s: string, t: string)
    requires Head(a) + s == Head(b) + t
    ensures a == b
  {
    assert (Head(a) + s)[8] == Head(a)[8];
    assert (Head(b) + t)[8] == Head(b)[8];
  }

  lemma DetailInjective(e1: ValidationError, e2: ValidationError)
    requires e1.entity == e2.entity
    requires Detail(e1) == Detail(e2)
    ensures e1 == e2
  {
    assert Detail(e1)[0] == Detail(e2)[0];
    if e1.Missing? {
      assert e1.key == Detail(e1)[8..];
    }
  }

  /** What a deserialiser leaves behind. The source assigns the object's
      attributes one after another and raises part-way on bad input, so on
      failure `state` holds the attributes assigned before the error. */
  datatype Deserialized<T> = Deserialized(state: T, error: Option<ValidationError>) {

    predicate Ok() {
      error.None?
    }

    /** The caller's view: the object on success, the raised error otherwise. */
    function ToResult(): (r: Result<T, ValidationError>)
      ensures r.Success? <==> Ok()
      ensures r.Success? ==> r.value == state
      ensures r.Failure? ==> Some(r.error) == error
    {
      match error
      case None => Success(state)
      case Some(e) => Failure(e)
    }
  }
}
