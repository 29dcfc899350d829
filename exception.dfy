/**
 * The typed error raised by migration tools (phpbb_db_migration_exception):
 * a message that names the error kind, followed by the ordered list of
 * parameters the thrower passed.
 */
module MigrationExceptions {

  /** The PHP values that reach the constructor: a string, or null (an undefined variable). */
  datatype Value = Null | Str(s: string)

  datatype MigrationException = MigrationException(message: string, parameters: seq<Value>)

  /**
   * array_shift on the argument list: the first element and what remains,
   * with null and the empty list for an empty argument list.
   */
  function ArrayShift(args: seq<Value>): (r: (Value, seq<Value>))
    ensures args != [] ==> [r.0] + r.1 == args
    ensures args == [] ==> r == (Null, [])
  {
    if args == [] then (Null, []) else (args[0], args[1..])
  }

  /** The base Exception stores its message as a string; null becomes the empty string. */
  function MessageText(v: Value): string
  {
    match v
    case Null => ""
    case Str(s) => s
  }

  /**
   * The constructor: the first argument becomes the message, the other
   * arguments become the parameters, in the order they were passed.
   */
  function Create(args: seq<Value>): (e: MigrationException)
  {
    var (message, parameters) := ArrayShift(args);
    MigrationException(MessageText(message), parameters)
  }

  /** The argument list a thrower passes to obtain e. */
  function Arguments(e: MigrationException): (args: seq<Value>)
    ensures |args| == |e.parameters| + 1
  {
    [Str(e.message)] + e.parameters
  }

  /** The usual way tools throw: an error kind and the offending name. */
  function Error(kind: string, name: Value): (e: MigrationException)
    ensures e.message == kind && e.parameters == [name]
  {
    Create([Str(kind), name])
  }

  lemma CreateMessage(args: seq<Value>)
    requires args != []
    ensures Create(args).message == MessageText(args[0])
  {
  }

  /** The remaining arguments are kept one for one and in order. */
  lemma CreateParameters(args: seq<Value>)
    requires args != []
    ensures |Create(args).parameters| == |args| - 1
    ensures forall i :: 0 <= i < |args| - 1 ==> Create(args).parameters[i] == args[i + 1]
  {
  }

  lemma CreateSingleArgument(message: Value)
    ensures Create([message]).parameters == []
    ensures Create([message]).message == MessageText(message)
  {
  }

  lemma CreateNoArguments()
    ensures Create([]) == MigrationException("", [])
  {
  }

  /** Building an exception from its own argument list gives it back. */
  lemma CreateArgumentsRoundTrip(e: MigrationException)
    ensures Create(Arguments(e)) == e
  {
    assert Arguments(e)[1..] == e.parameters;
  }

  /** An argument list that starts with a string is recovered from the exception built from it. */
  lemma ArgumentsCreateRoundTrip(args: seq<Value>)
    requires args != [] && args[0].Str?
    ensures Arguments(Create(args)) == args
  {
    assert [args[0]] + args[1..] == args;
  }

  /**
   * var_export(v, true) for the values modelled here; the escaping of quotes
   * inside strings is not modelled.
   */
  function VarExport(v: Value): string
  {
    match v
    case Null => "NULL"
    case Str(s) => "'" + s + "'"
  }

  /**
   * __toString exports the local $parameters, which is never assigned in
   * that method, so the export is always of null whatever was stored.
   */
  function ToString(e: MigrationException): string
  {
    var parameters := Null;
    e.message + ": " + VarExport(parameters)
  }

  lemma ToStringShape(e: MigrationException)
    ensures ToString(e) == e.message + ": NULL"
  {
  }

  /** The stored parameters never reach the text: two exceptions with one message print alike. */
  lemma ToStringIgnoresParameters(e1: MigrationException, e2: MigrationException)
    requires e1.message == e2.message
    ensures ToString(e1) == ToString(e2)
  {
  }

  /** The offending name of a thrown error never reaches its text: it prints alike whatever the name. */
  lemma ToStringDropsName(n: string)
    ensures ToString(Error("ROLE_NOT_EXIST", Str(n))) == "ROLE_NOT_EXIST: NULL"
  {
  }
}
