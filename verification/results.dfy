/**
  Outcomes of the request handlers and serializers of the recipe backend.

  Every handler either succeeds with an HTTP success status or fails with one
  of the errors the framework turns into a 4xx/5xx response:
  - `NotFound`: `get_object_or_404` found no row with the requested id (404);
  - `BadRequest`: an explicit 400 response or a `ValidationError` raised by a
    view or a serializer's `validate` (400);
  - `Invalid`: `serializer.is_valid` rejected the payload, with one entry per
    failed field check (400);
  - `IntegrityError`: the database refused a row because of a uniqueness
    constraint; nothing catches it, so the client sees a 500;
  - `ServerError`: any other uncaught Python exception (`KeyError` from a
    missing key, `ValueError` from `int()`), also a 500.
*/
module Results {

  datatype Option<+T> = None | Some(value: T) {
    function GetOr(default: T): T {
      match this
      case Some(v) => v
      case None => default
    }
  }

  /** The success statuses the handlers return. */
  datatype Status = Ok | Created | NoContent

  /** Human-readable messages attached to 400 responses. */
  datatype Message =
    | AlreadyFavorited
    | NotFavorited
    | AlreadyInCart
    | NotInCart
    | AlreadySubscribed
    | SelfSubscription
    | NotSubscribed
    | DuplicateIngredient
    | EmailTaken

  /** The fields of a recipe write payload. */
  datatype Field = TagsField | IngredientsField | NameField | ImageField | TextField | CookingTimeField

  /** One failed field check of `serializer.is_valid`. */
  datatype FieldError =
    | Required(field: Field)
    | Blank(field: Field)
    | TooLong(field: Field, maxLength: nat)
    | BelowMinimum(field: Field, minValue: int)
    | UnknownTag(tag: nat)
    | UnknownIngredient(ingredient: nat)
    | UnknownUser(user: nat)

  datatype Error =
    | NotFound
    | BadRequest(message: Message)
    | Invalid(errors: set<FieldError>)
    | IntegrityError
    | ServerError

  datatype Result<+T> = Success(value: T) | Failure(error: Error) {
    predicate IsFailure() {
      Failure?
    }

    function PropagateFailure<U>(): Result<U>
      requires Failure?
    {
      Failure(error)
    }

    function Extract(): T
      requires Success?
    {
      value
    }
  }

  function SuccessCode(s: Status): nat {
    match s
    case Ok => 200
    case Created => 201
    case NoContent => 204
  }

  function ErrorCode(e: Error): nat {
    match e
    case NotFound => 404
    case BadRequest(_) => 400
    case Invalid(_) => 400
    case IntegrityError => 500
    case ServerError => 500
  }

  /** The HTTP status code a client receives for a handler's reply. */
  function HttpCode(r: Result<Status>): (code: nat)
    ensures r.Success? <==> 200 <= code < 300
    ensures r.Failure? && (r.error.BadRequest? || r.error.Invalid?) ==> code == 400
  {
    match r
    case Success(s) => SuccessCode(s)
    case Failure(e) => ErrorCode(e)
  }
}
