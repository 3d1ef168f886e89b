/** From GraphQL filter trees to WHERE clauses. */
module Filters {
  import opened Wrappers

  // ---------- The filter tree and its conversion ----------

  datatype AddressFilter = AddressFilter(eq: Option<string>, ne: Option<string>, ins: seq<string>, nins: seq<string>,
                                         ands: seq<ConvenientFilter>, ors: seq<ConvenientFilter>)

  datatype BooleanFilter = BooleanFilter(eq: Option<bool>, ne: Option<bool>,
                                         ands: seq<ConvenientFilter>, ors: seq<ConvenientFilter>)

  datatype ConvenientFilter = ConvenientFilter(destination: Option<AddressFilter>, executed: Option<BooleanFilter>,
                                               ands: seq<ConvenientFilter>, ors: seq<ConvenientFilter>)

  datatype ConvenienceFilter = ConvenienceFilter(field: string, eq: Option<string>, ne: Option<string>,
                                                 gt: Option<string>, lt: Option<string>,
                                                 ins: seq<string>, nins: seq<string>,
                                                 ands: seq<ConvenienceFilter>, ors: seq<ConvenienceFilter>)

  function FormatBool(b: bool): string { if b then "true" else "false" }

  /** A missing value becomes the empty text, not a missing one. */
  function BoolText(b: Option<bool>): string { if b.Some? then FormatBool(b.value) else "" }

  function AddressCondition(d: AddressFilter, ands: seq<ConvenienceFilter>,
                            ors: seq<ConvenienceFilter>): ConvenienceFilter {
    ConvenienceFilter("Destination", d.eq, d.ne, None, None, d.ins, d.nins, ands, ors)
  }

  function ExecutedCondition(e: BooleanFilter, ands: seq<ConvenienceFilter>,
                             ors: seq<ConvenienceFilter>): ConvenienceFilter {
    ConvenienceFilter("Executed", Some(BoolText(e.eq)), Some(BoolText(e.ne)), None, None, [], [], ands, ors)
  }

  /** The nested lists of a node; those of its destination also reach its executed condition. */
  function ConvertOne(f: ConvenientFilter): seq<ConvenienceFilter>
    decreases f
  {
    var ands, ors := Convert(f.ands), Convert(f.ors);
    var dAnds := if f.destination.Some? then Convert(f.destination.value.ands) + ands else ands;
    var dOrs := if f.destination.Some? then Convert(f.destination.value.ors) + ors else ors;
    (if f.destination.Some? then [AddressCondition(f.destination.value, dAnds, dOrs)] else [])
    + (if f.executed.Some?
       then [ExecutedCondition(f.executed.value, Convert(f.executed.value.ands) + dAnds,
                               Convert(f.executed.value.ors) + dOrs)]
       else [])
  }

  function Convert(fs: seq<ConvenientFilter>): seq<ConvenienceFilter>
    decreases fs
  {
    if fs == [] then [] else ConvertOne(fs[0]) + Convert(fs[1..])
  }

  method ConvertNode(f: ConvenientFilter) returns (filters: seq<ConvenienceFilter>)
    ensures filters == ConvertOne(f)
    decreases f
  {
    filters := [];
    var ands := ConvertToConvenienceFilter(f.ands);
    var ors := ConvertToConvenienceFilter(f.ors);
    if f.destination.Some? {
      var moreAnds := ConvertToConvenienceFilter(f.destination.value.ands);
      ands := moreAnds + ands;
      var moreOrs := ConvertToConvenienceFilter(f.destination.value.ors);
      ors := moreOrs + ors;
      filters := filters + [AddressCondition(f.destination.value, ands, ors)];
    }
    if f.executed.Some? {
      var moreAnds := ConvertToConvenienceFilter(f.executed.value.ands);
      ands := moreAnds + ands;
      var moreOrs := ConvertToConvenienceFilter(f.executed.value.ors);
      ors := moreOrs + ors;
      filters := filters + [ExecutedCondition(f.executed.value, ands, ors)];
    }
  }

  method ConvertToConvenienceFilter(filter: seq<ConvenientFilter>) returns (filters: seq<ConvenienceFilter>)
    ensures filters == Convert(filter)
    decreases filter
  {
    filters := [];
    for i := 0 to |filter|
      invariant Convert(filter) == filters + Convert(filter[i..])
    {
      assert filter[i..][0] == filter[i] && filter[i..][1..] == filter[i + 1..];
      var added := ConvertNode(filter[i]);
      filters := filters + added;
    }
    assert filter[|filter|..] == [];
  }

  // ---------- The query compilers ----------

  datatype Repo = Vouchers | Notices | Reports | Inputs

  datatype Column = ExecutedColumn | DestinationColumn | InputIndexColumn | OutputIndexColumn | StatusColumn
                    | MsgSenderColumn

  datatype Comparison = Equal | NotEqual | Greater | Less

  datatype Arg = BoolArg(b: bool) | TextArg(text: string) | IntArg(n: int)

  /** column comparison $placeholder */
  datatype Condition = Condition(column: Column, comparison: Comparison, placeholder: nat)

  datatype Clause = Clause(conditions: seq<Condition>, args: seq<Arg>, count: nat)

  datatype QueryError = NilDereference | UnexpectedExecuted(value: string) | WrongAddress | NotImplemented
                        | UnexpectedField(field: string)

  datatype Literal = Literal(column: Column, comparison: Comparison, arg: Arg)

  predicate IsHexDigit(c: char) { '0' <= c <= '9' || 'a' <= c <= 'f' || 'A' <= c <= 'F' }

  function WithoutPrefix(s: string): string {
    if |s| >= 2 && s[0] == '0' && (s[1] == 'x' || s[1] == 'X') then s[2..] else s
  }

  predicate AllHex(digits: string) { forall i :: 0 <= i < |digits| ==> IsHexDigit(digits[i]) }

  predicate IsHexAddress(s: string) { |WithoutPrefix(s)| == 40 && AllHex(WithoutPrefix(s)) }

  function EqualTo(column: Column, f: ConvenienceFilter): Result<Literal, QueryError> {
    if f.eq.Some? then Ok(Literal(column, Equal, TextArg(f.eq.value))) else Err(NotImplemented)
  }

  /** What one filter means to the compiler of a repository. */
  function LiteralOf(repo: Repo, f: ConvenienceFilter): Result<Literal, QueryError> {
    match repo
    case Vouchers =>
      if f.field == "Executed" then
        if f.eq.None? then Err(NilDereference)
        else if f.eq.value == "true" then Ok(Literal(ExecutedColumn, Equal, BoolArg(true)))
        else if f.eq.value == "false" then Ok(Literal(ExecutedColumn, Equal, BoolArg(false)))
        else Err(UnexpectedExecuted(f.eq.value))
      else if f.field == "Destination" then
        if f.eq.None? then Err(NotImplemented)
        else if !IsHexAddress(f.eq.value) then Err(WrongAddress)
        else Ok(Literal(DestinationColumn, Equal, TextArg(f.eq.value)))
      else if f.field == "InputIndex" then EqualTo(InputIndexColumn, f)
      else Err(UnexpectedField(f.field))
    case Notices =>
      if f.field == "InputIndex" then EqualTo(InputIndexColumn, f) else Err(UnexpectedField(f.field))
    case Reports =>
      if f.field == "OutputIndex" then EqualTo(OutputIndexColumn, f)
      else if f.field == "InputIndex" then EqualTo(InputIndexColumn, f)
      else Err(UnexpectedField(f.field))
    case Inputs =>
      if f.field == "Index" then
        if f.eq.Some? then Ok(Literal(InputIndexColumn, Equal, TextArg(f.eq.value)))
        else if f.gt.Some? then Ok(Literal(InputIndexColumn, Greater, TextArg(f.gt.value)))
        else if f.lt.Some? then Ok(Literal(InputIndexColumn, Less, TextArg(f.lt.value)))
        else Err(NotImplemented)
      else if f.field == "Status" then
        if f.ne.Some? then Ok(Literal(StatusColumn, NotEqual, TextArg(f.ne.value))) else Err(NotImplemented)
      else if f.field == "MsgSender" then EqualTo(MsgSenderColumn, f)
      else Err(UnexpectedField(f.field))
  }

  /** The compilers of the four repositories differ in LiteralOf only. The first filter that cannot be compiled ends
      the loop with its error. */
  method TransformToQuery(repo: Repo, filters: seq<ConvenienceFilter>) returns (r: Result<Clause, QueryError>)
    ensures r.Ok? <==> forall i :: 0 <= i < |filters| ==> FilterCompiles(repo, filters[i])
    ensures r.Ok? ==> Compiles(repo, filters, r.value)
    ensures r.Err? ==> exists i :: 0 <= i < |filters| && LiteralOf(repo, filters[i]) == Err(r.error) &&
                         !FilterCompiles(repo, filters[i]) && ErrorFits(repo, filters[i], r.error) &&
                         forall k :: 0 <= k < i ==> FilterCompiles(repo, filters[k])
  {
    var conditions: seq<Condition> := [];
    var args: seq<Arg> := [];
    var count := 1;
    for i := 0 to |filters|
      invariant |conditions| == |args| == i && count == i + 1
      invariant forall k :: 0 <= k < i ==>
                  LiteralOf(repo, filters[k]) == Ok(Literal(conditions[k].column, conditions[k].comparison, args[k]))
      invariant forall k :: 0 <= k < i ==> conditions[k].placeholder == k + 1
      invariant forall k :: 0 <= k < i ==> FilterCompiles(repo, filters[k])
    {
      LiteralExists(repo, filters[i]);
      match LiteralOf(repo, filters[i]) {
        case Err(e) => return Err(e);
        case Ok(l) =>
          conditions := conditions + [Condition(l.column, l.comparison, count)];
          args := args + [l.arg];
          count := count + 1;
      }
    }
    r := Ok(Clause(conditions, args, count));
  }

  /** One condition for each filter, in order; condition k is bound to argument k + 1; count is the next free one. */
  ghost predicate Compiles(repo: Repo, filters: seq<ConvenienceFilter>, c: Clause) {
    && |c.conditions| == |c.args| == |filters| && c.count == |filters| + 1
    && forall k :: 0 <= k < |filters| ==>
         && c.conditions[k].placeholder == k + 1
         && LiteralOf(repo, filters[k]) == Ok(Literal(c.conditions[k].column, c.conditions[k].comparison, c.args[k]))
  }

  // ---------- What a filter means, from its own fields ----------

  predicate HasEq(f: ConvenienceFilter, field: string) { f.field == field && f.eq.Some? }

  /** The filters that each repository can compile. */
  predicate FilterCompiles(repo: Repo, f: ConvenienceFilter) {
    match repo
    case Vouchers =>
      || (HasEq(f, "Executed") && (f.eq.value == "true" || f.eq.value == "false"))
      || (HasEq(f, "Destination") && IsHexAddress(f.eq.value))
      || HasEq(f, "InputIndex")
    case Notices => HasEq(f, "InputIndex")
    case Reports => HasEq(f, "OutputIndex") || HasEq(f, "InputIndex")
    case Inputs =>
      || (f.field == "Index" && (f.eq.Some? || f.gt.Some? || f.lt.Some?))
      || (f.field == "Status" && f.ne.Some?)
      || HasEq(f, "MsgSender")
  }

  /** The rows that such a filter lets through. Of an input's Index filter eq counts before gt, and gt before lt. */
  predicate FilterMeets<R>(sem: Semantics<R>, repo: Repo, f: ConvenienceFilter, row: R) {
    match repo
    case Vouchers =>
      && (HasEq(f, "Executed") && f.eq.value == "true" ==> sem(row, ExecutedColumn, Equal, BoolArg(true)))
      && (HasEq(f, "Executed") && f.eq.value == "false" ==> sem(row, ExecutedColumn, Equal, BoolArg(false)))
      && (HasEq(f, "Destination") ==> sem(row, DestinationColumn, Equal, TextArg(f.eq.value)))
      && (HasEq(f, "InputIndex") ==> sem(row, InputIndexColumn, Equal, TextArg(f.eq.value)))
    case Notices =>
      HasEq(f, "InputIndex") ==> sem(row, InputIndexColumn, Equal, TextArg(f.eq.value))
    case Reports =>
      && (HasEq(f, "OutputIndex") ==> sem(row, OutputIndexColumn, Equal, TextArg(f.eq.value)))
      && (HasEq(f, "InputIndex") ==> sem(row, InputIndexColumn, Equal, TextArg(f.eq.value)))
    case Inputs =>
      && (HasEq(f, "Index") ==> sem(row, InputIndexColumn, Equal, TextArg(f.eq.value)))
      && (f.field == "Index" && f.eq.None? && f.gt.Some? ==> sem(row, InputIndexColumn, Greater, TextArg(f.gt.value)))
      && (f.field == "Index" && f.eq.None? && f.gt.None? && f.lt.Some? ==>
            sem(row, InputIndexColumn, Less, TextArg(f.lt.value)))
      && (f.field == "Status" && f.ne.Some? ==> sem(row, StatusColumn, NotEqual, TextArg(f.ne.value)))
      && (HasEq(f, "MsgSender") ==> sem(row, MsgSenderColumn, Equal, TextArg(f.eq.value)))
  }

  predicate KnownField(repo: Repo, field: string) {
    match repo
    case Vouchers => field == "Executed" || field == "Destination" || field == "InputIndex"
    case Notices => field == "InputIndex"
    case Reports => field == "OutputIndex" || field == "InputIndex"
    case Inputs => field == "Index" || field == "Status" || field == "MsgSender"
  }

  /** What is wrong with a filter that cannot be compiled. */
  predicate ErrorFits(repo: Repo, f: ConvenienceFilter, e: QueryError) {
    match e
    case UnexpectedField(field) => field == f.field && !KnownField(repo, field)
    case NilDereference => repo == Vouchers && f.field == "Executed" && f.eq.None?
    case UnexpectedExecuted(value) =>
      repo == Vouchers && HasEq(f, "Executed") && value == f.eq.value && value != "true" && value != "false"
    case WrongAddress => repo == Vouchers && HasEq(f, "Destination") && !IsHexAddress(f.eq.value)
    case NotImplemented => KnownField(repo, f.field) && !(repo == Vouchers && f.field == "Executed")
  }

  lemma LiteralExists(repo: Repo, f: ConvenienceFilter)
    ensures LiteralOf(repo, f).Ok? <==> FilterCompiles(repo, f)
    ensures LiteralOf(repo, f).Err? ==> ErrorFits(repo, f, LiteralOf(repo, f).error)
  {
  }

  lemma LiteralMeaning<R>(sem: Semantics<R>, repo: Repo, f: ConvenienceFilter, row: R)
    requires LiteralOf(repo, f).Ok?
    ensures Meets(sem, LiteralOf(repo, f).value, row) <==> FilterMeets(sem, repo, f, row)
  {
  }

  predicate IsAddressText(s: string, digits: string) {
    && |digits| == 40 && (forall i :: 0 <= i < 40 ==> digits[i] in "0123456789abcdefABCDEF")
    && (s == digits || s == "0x" + digits || s == "0X" + digits)
  }

  /** The texts that count as an address: forty hexadecimal digits, with or without 0x in front. */
  lemma AddressTexts(s: string)
    ensures IsHexAddress(s) <==> exists digits: string :: IsAddressText(s, digits)
  {
    if IsHexAddress(s) {
      var digits := WithoutPrefix(s);
      if digits != s { assert s == [s[0], s[1]] + digits; }
      forall i | 0 <= i < 40 ensures digits[i] in "0123456789abcdefABCDEF" {
        assert IsHexDigit(digits[i]);
        HexDigits(digits[i]);
      }
      assert IsAddressText(s, digits);
    }
    if digits: string :| IsAddressText(s, digits) {
      forall i | 0 <= i < 40 ensures IsHexDigit(digits[i]) { HexDigits(digits[i]); }
      assert IsHexDigit(digits[0]) && IsHexDigit(digits[1]);
      if s != digits { assert s[2..] == digits; }
    }
  }

  lemma HexDigits(c: char)
    ensures IsHexDigit(c) <==> c in "0123456789abcdefABCDEF"
  {
    var digits := "0123456789abcdefABCDEF";
    if IsHexDigit(c) {
      var i := if c <= '9' then c as int - '0' as int
               else if c >= 'a' then 10 + c as int - 'a' as int
               else 16 + c as int - 'A' as int;
      assert digits[i] == c;
    }
  }

  // ---------- Meaning ----------

  /** How the database compares the column of a row with an argument; any comparison will do. */
  type Semantics<!R> = (R, Column, Comparison, Arg) -> bool

  predicate Bound(conditions: seq<Condition>, args: seq<Arg>) {
    forall k :: 0 <= k < |conditions| ==> 1 <= conditions[k].placeholder <= |args|
  }

  /** WHERE c1 and c2 and ... over a row, with the arguments bound by number. */
  predicate Selects<R>(sem: Semantics<R>, conditions: seq<Condition>, args: seq<Arg>, row: R)
    requires Bound(conditions, args)
  {
    forall k :: 0 <= k < |conditions| ==>
      sem(row, conditions[k].column, conditions[k].comparison, args[conditions[k].placeholder - 1])
  }

  predicate Meets<R>(sem: Semantics<R>, l: Literal, row: R) { sem(row, l.column, l.comparison, l.arg) }

  /** LIMIT and OFFSET take the last two placeholders, and the conditions keep theirs. */
  lemma LimitAndOffsetAreLast<R>(sem: Semantics<R>, repo: Repo, filters: seq<ConvenienceFilter>, c: Clause, limit: int,
                                 offset: int, row: R)
    requires Compiles(repo, filters, c)
    ensures var args := c.args + [IntArg(limit), IntArg(offset)];
            && Bound(c.conditions, c.args) && Bound(c.conditions, args)
            && args[c.count - 1] == IntArg(limit) && args[c.count] == IntArg(offset) && |args| == c.count + 1
            && (Selects(sem, c.conditions, args, row) <==> Selects(sem, c.conditions, c.args, row))
  {
    var args := c.args + [IntArg(limit), IntArg(offset)];
    assert forall k :: 0 <= k < |c.conditions| ==>
        args[c.conditions[k].placeholder - 1] == c.args[c.conditions[k].placeholder - 1];
  }

  lemma CompiledIsBound(repo: Repo, filters: seq<ConvenienceFilter>, c: Clause)
    requires Compiles(repo, filters, c)
    ensures Bound(c.conditions, c.args)
  {
  }

  lemma ConditionIsMeant<R>(sem: Semantics<R>, repo: Repo, filters: seq<ConvenienceFilter>, c: Clause, row: R, k: nat)
    requires Compiles(repo, filters, c) && k < |filters|
    ensures MeetsFilter(sem, repo, filters[k], row) <==>
            sem(row, c.conditions[k].column, c.conditions[k].comparison, c.args[k])
  {
    assert LiteralOf(repo, filters[k]) == Ok(Literal(c.conditions[k].column, c.conditions[k].comparison, c.args[k]));
    LiteralExists(repo, filters[k]);
    LiteralMeaning(sem, repo, filters[k], row);
  }

  ghost predicate AllCompile(repo: Repo, cs: seq<ConvenienceFilter>) {
    forall c :: c in cs ==> FilterCompiles(repo, c)
  }

  ghost predicate MeetsFilter<R>(sem: Semantics<R>, repo: Repo, f: ConvenienceFilter, row: R) {
    FilterCompiles(repo, f) && FilterMeets(sem, repo, f, row)
  }

  /** The conjunction of what the filters mean. */
  ghost predicate AllMeet<R>(sem: Semantics<R>, repo: Repo, cs: seq<ConvenienceFilter>, row: R) {
    forall c :: c in cs ==> MeetsFilter(sem, repo, c, row)
  }

  predicate NumberedInOrder(c: Clause) {
    |c.conditions| == |c.args| && forall k :: 0 <= k < |c.conditions| ==> c.conditions[k].placeholder == k + 1
  }

  /** Condition k, bound to its argument. */
  predicate Holds<R>(sem: Semantics<R>, c: Clause, row: R, k: nat)
    requires k < |c.conditions| == |c.args|
  {
    sem(row, c.conditions[k].column, c.conditions[k].comparison, c.args[k])
  }

  lemma SelectsIffAllHold<R>(sem: Semantics<R>, c: Clause, row: R)
    requires NumberedInOrder(c)
    ensures Bound(c.conditions, c.args)
    ensures Selects(sem, c.conditions, c.args, row) <==> forall k :: 0 <= k < |c.conditions| ==> Holds(sem, c, row, k)
  {
    if Selects(sem, c.conditions, c.args, row) {
      forall k | 0 <= k < |c.conditions| ensures Holds(sem, c, row, k) {
        assert c.conditions[k].placeholder == k + 1;
      }
    } else {
      var k :| 0 <= k < |c.conditions| &&
               !sem(row, c.conditions[k].column, c.conditions[k].comparison, c.args[c.conditions[k].placeholder - 1]);
      assert !Holds(sem, c, row, k);
    }
  }

  /** Whatever decides the filters one by one, the clause decides their conjunction. */
  lemma SelectsConjunction<R>(sem: Semantics<R>, c: Clause, row: R, filters: seq<ConvenienceFilter>,
                              meets: ConvenienceFilter -> bool)
    requires NumberedInOrder(c) && |c.conditions| == |filters|
    requires forall k :: 0 <= k < |filters| ==> (meets(filters[k]) <==> Holds(sem, c, row, k))
    ensures (forall k :: 0 <= k < |c.conditions| ==> Holds(sem, c, row, k)) <==> forall f :: f in filters ==> meets(f)
  {
  }

  /** A compiled clause selects exactly the rows that meet every filter. */
  lemma ClauseSelectsConjunction<R>(sem: Semantics<R>, repo: Repo, filters: seq<ConvenienceFilter>, c: Clause, row: R)
    requires Compiles(repo, filters, c)
    ensures Bound(c.conditions, c.args)
    ensures Selects(sem, c.conditions, c.args, row) <==> AllMeet(sem, repo, filters, row)
  {
    var meets := f => MeetsFilter(sem, repo, f, row);
    forall k | 0 <= k < |filters|
      ensures meets(filters[k]) <==> Holds(sem, c, row, k)
    {
      ConditionIsMeant(sem, repo, filters, c, row, k);
    }
    SelectsIffAllHold(sem, c, row);
    SelectsConjunction(sem, c, row, filters, meets);
    assert AllMeet(sem, repo, filters, row) <==> forall f :: f in filters ==> meets(f);
  }

  /** What the voucher query makes of a filter tree: the conjunction of the eq conditions of its top-level nodes. */
  predicate TopLevelMeets<R>(sem: Semantics<R>, f: ConvenientFilter, row: R) {
    && (f.destination.Some? && f.destination.value.eq.Some? ==>
          sem(row, DestinationColumn, Equal, TextArg(f.destination.value.eq.value)))
    && (f.executed.Some? && f.executed.value.eq.Some? ==>
          sem(row, ExecutedColumn, Equal, BoolArg(f.executed.value.eq.value)))
  }

  predicate Compilable(f: ConvenientFilter) {
    && (f.destination.Some? ==> f.destination.value.eq.Some? && IsHexAddress(f.destination.value.eq.value))
    && (f.executed.Some? ==> f.executed.value.eq.Some?)
  }

  /** Conversion never produces the filter on which the voucher compiler would dereference nil. */
  lemma {:induction false} ConvertedHaveValues(fs: seq<ConvenientFilter>)
    ensures forall c :: c in Convert(fs) ==> c.field == "Destination" || (c.field == "Executed" && c.eq.Some?)
    ensures forall c :: c in Convert(fs) ==> LiteralOf(Vouchers, c) != Err(NilDereference)
    decreases |fs|
  {
    if fs != [] { ConvertedHaveValues(fs[1..]); }
  }

  lemma DestinationMeaning<R>(sem: Semantics<R>, d: AddressFilter, ands: seq<ConvenienceFilter>,
                              ors: seq<ConvenienceFilter>, row: R)
    ensures var c := AddressCondition(d, ands, ors);
            && (FilterCompiles(Vouchers, c) <==> d.eq.Some? && IsHexAddress(d.eq.value))
            && (d.eq.Some? ==>
                  (FilterMeets(sem, Vouchers, c, row) <==> sem(row, DestinationColumn, Equal, TextArg(d.eq.value))))
  {
  }

  lemma ExecutedMeaning<R>(sem: Semantics<R>, e: BooleanFilter, ands: seq<ConvenienceFilter>,
                           ors: seq<ConvenienceFilter>, row: R)
    ensures var c := ExecutedCondition(e, ands, ors);
            && (FilterCompiles(Vouchers, c) <==> e.eq.Some?)
            && (e.eq.Some? ==>
                  (FilterMeets(sem, Vouchers, c, row) <==> sem(row, ExecutedColumn, Equal, BoolArg(e.eq.value))))
  {
  }

  lemma ConvertedNode<R>(sem: Semantics<R>, f: ConvenientFilter, row: R)
    ensures AllCompile(Vouchers, ConvertOne(f)) <==> Compilable(f)
    ensures Compilable(f) ==> (AllMeet(sem, Vouchers, ConvertOne(f), row) <==> TopLevelMeets(sem, f, row))
  {
    var cs := ConvertOne(f);
    if f.destination.Some? {
      assert cs[0] == AddressCondition(f.destination.value, cs[0].ands, cs[0].ors);
      DestinationMeaning(sem, f.destination.value, cs[0].ands, cs[0].ors, row);
      assert cs[0] in cs;
    }
    if f.executed.Some? {
      var last := cs[|cs| - 1];
      assert last == ExecutedCondition(f.executed.value, last.ands, last.ors);
      ExecutedMeaning(sem, f.executed.value, last.ands, last.ors, row);
      assert last in cs;
    }
    assert |cs| <= 2;
  }

  /** For every filter tree: the voucher query compiles if and only if each top-level destination filter has an eq
      that is an address and each top-level executed filter has an eq, and then it selects exactly the rows that meet
      all those eq conditions. Every nested and, or, and every ne, in and nin is without effect. */
  lemma {:induction false} TreeMeaning<R>(sem: Semantics<R>, fs: seq<ConvenientFilter>, row: R)
    ensures AllCompile(Vouchers, Convert(fs)) <==> forall i :: 0 <= i < |fs| ==> Compilable(fs[i])
    ensures AllCompile(Vouchers, Convert(fs)) ==>
              (AllMeet(sem, Vouchers, Convert(fs), row) <==>
               forall i :: 0 <= i < |fs| ==> TopLevelMeets(sem, fs[i], row))
    decreases |fs|
  {
    if fs != [] {
      ConvertedNode(sem, fs[0], row);
      TreeMeaning(sem, fs[1..], row);
      assert forall c :: c in Convert(fs) <==> c in ConvertOne(fs[0]) || c in Convert(fs[1..]);
      assert forall i :: 0 < i < |fs| ==> fs[i] == fs[1..][i - 1];
      assert forall i :: 0 <= i < |fs[1..]| ==> fs[1..][i] == fs[i + 1];
    }
  }

  /** Conversion goes node by node, in the order of the list. */
  lemma {:induction false} ConvertJoins(fs: seq<ConvenientFilter>, gs: seq<ConvenientFilter>)
    ensures Convert(fs + gs) == Convert(fs) + Convert(gs)
    decreases |fs|
  {
    if fs == [] {
      assert fs + gs == gs;
    } else {
      assert (fs + gs)[0] == fs[0] && (fs + gs)[1..] == fs[1..] + gs;
      ConvertJoins(fs[1..], gs);
    }
  }

  /** What a node's conditions keep of it besides eq: ne, in and nin of its own filter, and the nested lists of the
      node, those of its destination filter before its own, those of its executed filter before both. */
  lemma ConditionsKeepLists(f: ConvenientFilter)
    ensures f.destination.Some? ==>
              var d, c := f.destination.value, ConvertOne(f)[0];
              && c.field == "Destination" && c.ne == d.ne && c.ins == d.ins && c.nins == d.nins
              && c.ands == Convert(d.ands) + Convert(f.ands) && c.ors == Convert(d.ors) + Convert(f.ors)
    ensures f.executed.Some? ==>
              var e, c := f.executed.value, ConvertOne(f)[|ConvertOne(f)| - 1];
              var ands := if f.destination.Some? then Convert(f.destination.value.ands) else [];
              var ors := if f.destination.Some? then Convert(f.destination.value.ors) else [];
              && c.field == "Executed" && c.ins == [] && c.nins == []
              && c.ne == Some(if e.ne.None? then "" else if e.ne.value then "true" else "false")
              && c.ands == Convert(e.ands) + (ands + Convert(f.ands)) &&
                   c.ors == Convert(e.ors) + (ors + Convert(f.ors))
  {
    assert [] + Convert(f.ands) == Convert(f.ands) && [] + Convert(f.ors) == Convert(f.ors);
  }

  // ---------- The filters of the GraphQL input and output queries ----------

  datatype InputFilter = InputFilter(indexGreaterThan: Option<int>, indexLowerThan: Option<int>,
                                     msgSender: Option<string>)

  function Field(field: string): ConvenienceFilter {
    ConvenienceFilter(field, None, None, None, None, [], [], [], [])
  }

  /** The filter list of a query for inputs; `show` is the decimal notation. */
  function InputFilters(show: int -> string, where_: InputFilter): seq<ConvenienceFilter> {
    (if where_.indexGreaterThan.Some? then [Field("Index").(gt := Some(show(where_.indexGreaterThan.value)))] else [])
    + (if where_.indexLowerThan.Some? then [Field("Index").(lt := Some(show(where_.indexLowerThan.value)))] else [])
    + (if where_.msgSender.Some? then [Field("MsgSender").(eq := where_.msgSender)] else [])
  }

  /** The filter list of a query for the vouchers, notices or reports of an input. */
  function OfInput(show: int -> string, inputIndex: Option<int>): seq<ConvenienceFilter> {
    if inputIndex.Some? then [Field("InputIndex").(eq := Some(show(inputIndex.value)))] else []
  }

  /** A query for inputs always compiles, and selects exactly the rows above, below and from what it names. */
  lemma InputQueryMeaning<R>(sem: Semantics<R>, show: int -> string, where_: InputFilter, row: R)
    ensures AllCompile(Inputs, InputFilters(show, where_))
    ensures AllMeet(sem, Inputs, InputFilters(show, where_), row) <==>
            && (where_.indexGreaterThan.Some? ==>
                  sem(row, InputIndexColumn, Greater, TextArg(show(where_.indexGreaterThan.value))))
            && (where_.indexLowerThan.Some? ==>
                  sem(row, InputIndexColumn, Less, TextArg(show(where_.indexLowerThan.value))))
            && (where_.msgSender.Some? ==> sem(row, MsgSenderColumn, Equal, TextArg(where_.msgSender.value)))
  {
    var greater := if where_.indexGreaterThan.Some?
                   then [Field("Index").(gt := Some(show(where_.indexGreaterThan.value)))] else [];
    var lower := if where_.indexLowerThan.Some?
                 then [Field("Index").(lt := Some(show(where_.indexLowerThan.value)))] else [];
    var sender := if where_.msgSender.Some? then [Field("MsgSender").(eq := where_.msgSender)] else [];
    assert forall f :: f in InputFilters(show, where_) <==> f in greater || f in lower || f in sender;
    assert forall f :: f in greater ==> f == greater[0];
    assert forall f :: f in lower ==> f == lower[0];
    assert forall f :: f in sender ==> f == sender[0];
    if where_.indexGreaterThan.Some? { assert greater[0] in greater; }
    if where_.indexLowerThan.Some? { assert lower[0] in lower; }
    if where_.msgSender.Some? { assert sender[0] in sender; }
  }

  /** A query for the outputs of an input always compiles, and selects exactly the rows of that input; one that names no
      input selects every row. */
  lemma OutputQueryMeaning<R>(sem: Semantics<R>, repo: Repo, show: int -> string, inputIndex: Option<int>, row: R)
    requires repo != Inputs
    ensures AllCompile(repo, OfInput(show, inputIndex))
    ensures AllMeet(sem, repo, OfInput(show, inputIndex), row) <==>
            (inputIndex.Some? ==> sem(row, InputIndexColumn, Equal, TextArg(show(inputIndex.value))))
  {
    if inputIndex.Some? { assert OfInput(show, inputIndex)[0] in OfInput(show, inputIndex); }
  }
}
