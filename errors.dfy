/**
 * The error enum of the crate and the two ways it is turned into text:
 * its Display strings (thiserror attributes) and its derived Debug strings.
 * Both embed strings through Rust's `{:?}`, which quotes and escapes them;
 * that quoting is what makes every rendering identify its error.
 */
module Errors {
  import opened Wrappers

  datatype Error =
    | ModuleAlreadyRegistered(moduleName: string)
    | ExecutionError(moduleName: string, err: string)
    | QueryError(moduleName: string, err: string)
    | ParseError(msg: Option<string>)
    | NotFoundError(moduleName: string)

  /** The detail the dispatcher puts into ParseError when an envelope has other than one entry. */
  const TooManyPayloads: string := "too many module payloads"

  /** How `{:?}` writes one character inside a quoted string. */
  function EscapeChar(c: char): (e: string)
    ensures 1 <= |e| <= 2 && e[0] != '"'
    ensures |e| == 1 <==> e[0] != '\\'
    ensures |e| == 1 ==> e == [c]
  {
    match c
    case '"' => "\\\""
    case '\\' => "\\\\"
    case '\n' => "\\n"
    case '\r' => "\\r"
    case '\t' => "\\t"
    case '\0' => "\\0"
    case _ => [c]
  }

  /**
   * `{:?}` escaping of a whole string: each character becomes one or two
   * characters, and every double quote in the result is preceded by a
   * backslash, so none of them can end the quoted string.
   */
  function Escape(s: string): (r: string)
    ensures |s| <= |r| <= 2 * |s|
    ensures s != [] ==> r[0] != '"'
    ensures forall i :: 0 < i < |r| && r[i] == '"' ==> r[i - 1] == '\\'
  {
    if s == [] then [] else EscapeChar(s[0]) + Escape(s[1..])
  }

  /** `{:?}` on a String: the escaped text between double quotes. */
  function DebugStr(s: string): (r: string)
    ensures 2 <= |r| && r[0] == '"' && r[|r| - 1] == '"'
    ensures forall i :: 0 < i < |r| - 1 && r[i] == '"' ==> r[i - 1] == '\\'
  {
    "\"" + Escape(s) + "\""
  }

  /** `{:?}` on an Option<String>. */
  function DebugOption(o: Option<string>): (r: string)
    ensures o.None? ==> r == "None"
    ensures o.Some? ==> 7 <= |r| && r[..5] == "Some(" && r[|r| - 1] == ')'
  {
    match o
    case None => "None"
    case Some(s) => "Some(" + (DebugStr(s) + ")")
  }

  /**
   * The Display text of each variant (what `to_string()` returns). Its
   * opening words tell the variants apart: "module" for the two that name
   * only a module, "error executing", "error querying" and "error parsing"
   * for the others.
   */
  function Display(e: Error): (r: string)
    ensures 7 <= |r|
    ensures r[0] == if e.ModuleAlreadyRegistered? || e.NotFoundError? then 'm' else 'e'
    ensures e.ExecutionError? ==> r[6] == 'e'
    ensures e.QueryError? ==> r[6] == 'q'
    ensures e.ParseError? ==> r[6] == 'p'
  {
    match e
    case ModuleAlreadyRegistered(m) => "module " + (DebugStr(m) + " already registered")
    case ExecutionError(m, err) => "error executing module " + (DebugStr(m) + (": " + DebugStr(err)))
    case QueryError(m, err) => "error querying module " + (DebugStr(m) + (": " + DebugStr(err)))
    case ParseError(msg) => "error parsing request: " + DebugOption(msg)
    case NotFoundError(m) => "module " + (DebugStr(m) + " not found")
  }

  /**
   * The derived Debug text of each variant (what `format!("{:?}", e)`
   * returns): the variant's name first, then its fields in braces.
   */
  function Debug(e: Error): (r: string)
    ensures 3 <= |r| && r[|r| - 2..] == " }"
    ensures r[0] == match e
      case ModuleAlreadyRegistered(_) => 'M'
      case ExecutionError(_, _) => 'E'
      case QueryError(_, _) => 'Q'
      case ParseError(_) => 'P'
      case NotFoundError(_) => 'N'
  {
    match e
    case ModuleAlreadyRegistered(m) => "ModuleAlreadyRegistered { module: " + (DebugStr(m) + " }")
    case ExecutionError(m, err) => "ExecutionError { module: " + (DebugStr(m) + (", err: " + (DebugStr(err) + " }")))
    case QueryError(m, err) => "QueryError { module: " + (DebugStr(m) + (", err: " + (DebugStr(err) + " }")))
    case ParseError(msg) => "ParseError { msg: " + (DebugOption(msg) + " }")
    case NotFoundError(m) => "NotFoundError { module: " + (DebugStr(m) + " }")
  }

  lemma Associate(p: string, q: string, r: string)
    ensures (p + q) + r == p + (q + r)
  {
  }

  lemma Reassociate(p: string, q: string, r: string, x: string)
    ensures (p + (q + r)) + x == p + (q + (r + x))
  {
  }

  lemma StripPrefix(p: string, x: string, y: string)
    requires p + x == p + y
    ensures x == y
  {
    assert x == (p + x)[|p|..];
    assert y == (p + y)[|p|..];
  }

  /** Two escaped characters followed by anything agree only if the characters do. */
  lemma EscapeCharPrefixFree(c: char, d: char, x: string, y: string)
    requires EscapeChar(c) + x == EscapeChar(d) + y
    ensures c == d && x == y
  {
    var ec, ed := EscapeChar(c), EscapeChar(d);
    assert (ec + x)[0] == ec[0] && (ed + y)[0] == ed[0];
    if |ec| == 1 {
      assert |ed| == 1;
    } else {
      assert |ed| == 2;
      assert (ec + x)[1] == ec[1] && (ed + y)[1] == ed[1];
    }
    assert ec == ed;
    StripPrefix(ec, x, y);
  }

  lemma EscapeCons(s: string, z: string)
    requires s != []
    ensures Escape(s) + z == EscapeChar(s[0]) + (Escape(s[1..]) + z)
  {
    var head, tail := EscapeChar(s[0]), Escape(s[1..]);
    assert Escape(s) == head + tail;
    Associate(head, tail, z);
  }

  /** A non-empty escaped text does not start with a double quote. */
  lemma EscapedNeverStartsWithQuote(s: string, z: string)
    ensures s != [] ==> (Escape(s) + z)[0] != '"'
  {
    if s != [] {
      assert (Escape(s) + z)[0] == EscapeChar(s[0])[0];
    }
  }

  /**
   * The escaped text never contains an unescaped double quote, so the first
   * such quote marks where the string ends.
   */
  lemma {:induction false} EscapeSelfDelimiting(a: string, x: string, b: string, y: string)
    requires Escape(a) + (['"'] + x) == Escape(b) + (['"'] + y)
    ensures a == b && x == y
    decreases |a|
  {
    if a == [] && b == [] {
      assert Escape(a) == [] && Escape(b) == [];
      assert Escape(a) + (['"'] + x) == ['"'] + x;
      assert Escape(b) + (['"'] + y) == ['"'] + y;
      StripPrefix(['"'], x, y);
    } else if a == [] {
      EscapedNeverStartsWithQuote(b, ['"'] + y);
      assert false;
    } else if b == [] {
      EscapedNeverStartsWithQuote(a, ['"'] + x);
      assert false;
    } else {
      EscapeCons(a, ['"'] + x);
      EscapeCons(b, ['"'] + y);
      EscapeCharPrefixFree(a[0], b[0], Escape(a[1..]) + (['"'] + x), Escape(b[1..]) + (['"'] + y));
      EscapeSelfDelimiting(a[1..], x, b[1..], y);
      assert a == [a[0]] + a[1..] && b == [b[0]] + b[1..];
    }
  }

  lemma DebugStrSplit(a: string, x: string)
    ensures DebugStr(a) + x == ['"'] + (Escape(a) + (['"'] + x))
  {
    Reassociate(['"'], Escape(a), ['"'], x);
  }

  /** A quoted string can be read back off the front of any text it starts. */
  lemma DebugStrSelfDelimiting(a: string, x: string, b: string, y: string)
    requires DebugStr(a) + x == DebugStr(b) + y
    ensures a == b && x == y
  {
    DebugStrSplit(a, x);
    DebugStrSplit(b, y);
    StripPrefix(['"'], Escape(a) + (['"'] + x), Escape(b) + (['"'] + y));
    EscapeSelfDelimiting(a, x, b, y);
  }

  lemma DebugStrInjective(a: string, b: string)
    requires DebugStr(a) == DebugStr(b)
    ensures a == b
  {
    assert DebugStr(a) + [] == DebugStr(b) + [];
    DebugStrSelfDelimiting(a, [], b, []);
  }

  /** A fixed text followed by a quoted string determines the string and what follows it. */
  lemma PrefixedQuoted(p: string, a: string, x: string, b: string, y: string)
    requires p + (DebugStr(a) + x) == p + (DebugStr(b) + y)
    ensures a == b && x == y
  {
    StripPrefix(p, DebugStr(a) + x, DebugStr(b) + y);
    DebugStrSelfDelimiting(a, x, b, y);
  }

  /** The first character of `{:?}` on an Option tells None from Some. */
  lemma DebugOptionHead(o: Option<string>, z: string)
    ensures (DebugOption(o) + z)[0] == if o.None? then 'N' else 'S'
  {
  }

  lemma DebugOptionSelfDelimiting(o: Option<string>, x: string, p: Option<string>, y: string)
    requires DebugOption(o) + x == DebugOption(p) + y
    ensures o == p && x == y
  {
    DebugOptionHead(o, x);
    DebugOptionHead(p, y);
    if o.None? && p.None? {
      StripPrefix("None", x, y);
    } else if o.Some? && p.Some? {
      DebugSomeSelfDelimiting(o.value, x, p.value, y);
    }
  }

  lemma DebugSomeSelfDelimiting(a: string, x: string, b: string, y: string)
    requires DebugOption(Some(a)) + x == DebugOption(Some(b)) + y
    ensures a == b && x == y
  {
    Reassociate("Some(", DebugStr(a), ")", x);
    Reassociate("Some(", DebugStr(b), ")", y);
    PrefixedQuoted("Some(", a, ")" + x, b, ")" + y);
    StripPrefix(")", x, y);
  }

  /** The text after "module " and the quoted name, for the two variants that share that prefix. */
  function ModuleSuffix(e: Error): string
  {
    if e.NotFoundError? then " not found" else " already registered"
  }

  /**
   * Distinct errors display differently: the Display text names the variant
   * and recovers every field, so ParseError with None and with Some(...)
   * differ, and two modules' NotFoundError texts differ.
   */
  lemma DisplayInjective(e1: Error, e2: Error)
    requires Display(e1) == Display(e2)
    ensures e1 == e2
  {
    if e1.ModuleAlreadyRegistered? || e1.NotFoundError? {
      assert e2.ModuleAlreadyRegistered? || e2.NotFoundError?;
      PrefixedQuoted("module ", e1.moduleName, ModuleSuffix(e1), e2.moduleName, ModuleSuffix(e2));
    } else if e1.ExecutionError? {
      assert e2.ExecutionError?;
      PrefixedQuoted("error executing module ", e1.moduleName, ": " + DebugStr(e1.err), e2.moduleName, ": " + DebugStr(e2.err));
      StripPrefix(": ", DebugStr(e1.err), DebugStr(e2.err));
      DebugStrInjective(e1.err, e2.err);
    } else if e1.QueryError? {
      assert e2.QueryError?;
      PrefixedQuoted("error querying module ", e1.moduleName, ": " + DebugStr(e1.err), e2.moduleName, ": " + DebugStr(e2.err));
      StripPrefix(": ", DebugStr(e1.err), DebugStr(e2.err));
      DebugStrInjective(e1.err, e2.err);
    } else {
      assert e1.ParseError? && e2.ParseError?;
      StripPrefix("error parsing request: ", DebugOption(e1.msg), DebugOption(e2.msg));
      assert DebugOption(e1.msg) + [] == DebugOption(e2.msg) + [];
      DebugOptionSelfDelimiting(e1.msg, [], e2.msg, []);
    }
  }

  /** Distinct errors have distinct derived Debug texts. */
  lemma DebugInjective(e1: Error, e2: Error)
    requires Debug(e1) == Debug(e2)
    ensures e1 == e2
  {
    match e1
    case ModuleAlreadyRegistered(m1) =>
      PrefixedQuoted("ModuleAlreadyRegistered { module: ", m1, " }", e2.moduleName, " }");
    case NotFoundError(m1) =>
      PrefixedQuoted("NotFoundError { module: ", m1, " }", e2.moduleName, " }");
    case ExecutionError(m1, r1) =>
      PrefixedQuoted("ExecutionError { module: ", m1, ", err: " + (DebugStr(r1) + " }"),
                     e2.moduleName, ", err: " + (DebugStr(e2.err) + " }"));
      PrefixedQuoted(", err: ", r1, " }", e2.err, " }");
    case QueryError(m1, r1) =>
      PrefixedQuoted("QueryError { module: ", m1, ", err: " + (DebugStr(r1) + " }"),
                     e2.moduleName, ", err: " + (DebugStr(e2.err) + " }"));
      PrefixedQuoted(", err: ", r1, " }", e2.err, " }");
    case ParseError(o1) =>
      StripPrefix("ParseError { msg: ", DebugOption(o1) + " }", DebugOption(e2.msg) + " }");
      DebugOptionSelfDelimiting(o1, " }", e2.msg, " }");
  }
}
