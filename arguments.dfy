/**
  Looking up a call's arguments (`src/traits.rs`): by name, by position,
  and by name falling back to position. An argument list holds its
  elements as the parser left them; an element the parser could not make
  out is `None`, and unwrapping one is a panic, so the lookups require that
  every element they unwrap is present.
*/
module Arguments {
  import opened Wrappers
  import opened Unicode
  import opened Syntax

  /** `RArgumentNameClause`: its name, `None` when the parser could not make it out. */
  datatype NameClause = NameClause(name: Option<string>)

  /** `RArgument`: an optional name clause and an optional value. */
  datatype Argument = Argument(nameClause: Option<NameClause>, value: Option<Node>)

  type ArgumentList = seq<Option<Argument>>

  /** The predicate `find` is given: the argument has a name clause whose name, trimmed, is `name`. */
  predicate Matches(a: Argument, name: string)
  {
    a.nameClause.Some? && a.nameClause.value.name.Some? && Trim(a.nameClause.value.name.value) == name
  }

  /** Scanning for `name` unwraps only present elements: each is present up to the first match. */
  predicate ScanDefined(args: ArgumentList, name: string)
  {
    args != [] ==> args[0].Some? && (Matches(args[0].value, name) || ScanDefined(args[1..], name))
  }

  /** The index of the first argument named `name`, or `|args|` when none is. */
  function FindByName(args: ArgumentList, name: string): (k: nat)
    requires ScanDefined(args, name)
    ensures k <= |args|
    ensures forall j :: 0 <= j < k ==> args[j].Some? && !Matches(args[j].value, name)
    ensures k < |args| ==> args[k].Some? && Matches(args[k].value, name)
  {
    if args == [] then 0
    else if Matches(args[0].value, name) then 0
    else
      var k := FindByName(args[1..], name);
      assert forall j :: 0 <= j < k ==> args[1..][j] == args[j + 1];
      1 + k
  }

  /** `get_arg_by_name`: the first argument whose name clause reads `name`. */
  function GetArgByName(args: ArgumentList, name: string): (r: Option<Argument>)
    requires ScanDefined(args, name)
    ensures r.Some? ==> exists k :: 0 <= k < |args| && args[k] == r && Matches(r.value, name)
                                    && forall j :: 0 <= j < k ==> args[j].Some? && !Matches(args[j].value, name)
    ensures r.None? ==> forall j :: 0 <= j < |args| ==> args[j].Some? && !Matches(args[j].value, name)
  {
    var k := FindByName(args, name);
    if k < |args| then args[k] else None
  }

  /** `get_arg_by_position`: the argument at `pos` among all arguments, named ones included. */
  function GetArgByPosition(args: ArgumentList, pos: nat): (r: Option<Argument>)
    requires pos < |args| ==> args[pos].Some?
    ensures r.Some? <==> pos < |args|
    ensures r.Some? ==> args[pos] == r
  {
    if pos < |args| then args[pos] else None
  }

  /** Both lookups of `get_arg_by_name_then_position` are free of panics. */
  predicate LookupDefined(args: ArgumentList, name: string, pos: nat)
  {
    ScanDefined(args, name) && (GetArgByName(args, name).None? ==> pos < |args| ==> args[pos].Some?)
  }

  /** `get_arg_by_name_then_position`: the argument named `name`, else the one at `pos`. */
  function GetArgByNameThenPosition(args: ArgumentList, name: string, pos: nat): (r: Option<Argument>)
    requires LookupDefined(args, name, pos)
    ensures GetArgByName(args, name).Some? ==> r == GetArgByName(args, name)
    ensures GetArgByName(args, name).None? ==> r == GetArgByPosition(args, pos)
  {
    match GetArgByName(args, name)
    case Some(byName) => Some(byName)
    case None => GetArgByPosition(args, pos)
  }

  // ----- Properties -----------------------------------------------------------------

  /** Only one first match: any argument named `name` with no named one before it is the result. */
  lemma FirstMatchIsFound(args: ArgumentList, name: string, k: nat)
    requires ScanDefined(args, name)
    requires k < |args| && args[k].Some? && Matches(args[k].value, name)
    requires forall j :: 0 <= j < k ==> args[j].Some? && !Matches(args[j].value, name)
    ensures GetArgByName(args, name) == args[k]
  {
    var i := FindByName(args, name);
    if i != k {
      assert false;
    }
  }

  /** Arguments without a name clause are never found by name, whatever the name. */
  lemma UnnamedNeverMatch(args: ArgumentList, name: string)
    requires forall j :: 0 <= j < |args| ==> args[j].Some? && args[j].value.nameClause.None?
    ensures ScanDefined(args, name) && GetArgByName(args, name).None?
  {
    AllPresentScans(args, name);
  }

  /** When every element is present, scanning for any name is free of panics. */
  lemma {:induction false} AllPresentScans(args: ArgumentList, name: string)
    requires forall j :: 0 <= j < |args| ==> args[j].Some?
    ensures ScanDefined(args, name)
  {
    if args != [] {
      assert forall j :: 0 <= j < |args| - 1 ==> args[1..][j] == args[j + 1];
      AllPresentScans(args[1..], name);
    }
  }

  /** With no named arguments, looking up by name then position is looking up by position. */
  lemma UnnamedFallsBackToPosition(args: ArgumentList, name: string, pos: nat)
    requires forall j :: 0 <= j < |args| ==> args[j].Some? && args[j].value.nameClause.None?
    ensures LookupDefined(args, name, pos)
    ensures GetArgByNameThenPosition(args, name, pos) == GetArgByPosition(args, pos)
  {
    UnnamedNeverMatch(args, name);
  }

  /** A name clause whose name the parser could not make out never matches. */
  lemma UnresolvedNameNeverMatches(value: Option<Node>, name: string)
    ensures !Matches(Argument(Some(NameClause(None)), value), name)
  {
  }

  /** Position counts named arguments too: in `f(a = 1, 2)` position 0 is `a = 1`. */
  lemma PositionCountsNamed(named: Argument, unnamed: Argument)
    requires named.nameClause.Some? && unnamed.nameClause.None?
    ensures GetArgByPosition([Some(named), Some(unnamed)], 0) == Some(named)
    ensures GetArgByPosition([Some(named), Some(unnamed)], 1) == Some(unnamed)
    ensures GetArgByPosition([Some(named), Some(unnamed)], 2).None?
  {
  }
}
