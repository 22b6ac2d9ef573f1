/** The text of a `create or replace function` statement and how a stored one is compared. */
module FunctionText {
  import opened Options
  import opened Text

  const TAG := "$_SCHEMAHERO_$"

  datatype Param = Param(mode: string, name: string, typ: string)

  datatype FunctionSchema = FunctionSchema(
    schema: string, params: seq<Param>, ret: string, returnSet: bool, securityDefiner: bool, body: string, lang: string)

  function SerializeParam(p: Param): string {
    (if p.mode != "" then p.mode + " " else "") + (if p.name != "" then p.name + " " else "") + p.typ
  }

  function SerializeParams(ps: seq<Param>): seq<string> {
    if ps == [] then [] else [SerializeParam(ps[0])] + SerializeParams(ps[1..])
  }

  function QualifiedName(name: string, schema: string, params: seq<Param>): string {
    (if schema != "" && schema != "public" then schema + "." + name else name)
    + "(" + Join(SerializeParams(params), ", ") + ")"
  }

  /** Everything in front of ` as`. */
  function Header(name: string, f: FunctionSchema): string {
    "create or replace function " + QualifiedName(name, f.schema, f.params)
    + (if f.ret != "" then " returns" + (if f.returnSet then " setof" else "") + " " + f.ret else "")
    + (if f.securityDefiner then " security definer" else "")
  }

  /** A function body between its delimiters, each on its own line. */
  function Block(header: string, body: string, lang: string): string {
    header + " as\n" + TAG + "\n" + body + "\n" + TAG + "\nlanguage " + lang
  }

  function CreateFunctionStatements(name: string, f: FunctionSchema): seq<string> {
    [Block(Header(name, f), f.body, f.lang)]
  }

  /** The text between the first pair of matching dollar-quote delimiters. */
  function ExtractDollarQuotedBody(def: string): Option<string> {
    var open := IndexOfChar(def, '$');
    if open < 0 then None else
    var tagEnd := IndexOfChar(def[open + 1..], '$');
    if tagEnd < 0 then None else
    var delimiter := def[open..open + 1 + tagEnd + 1];
    var bodyStart := open + |delimiter|;
    var end := Index(def[bodyStart..], delimiter);
    if end < 0 then None else Some(def[bodyStart..bodyStart + end])
  }

  predicate MentionsDefiner(def: string) {
    Contains(Upper(def), "SECURITY DEFINER")
  }

  /** Whether a stored definition already represents the desired function. */
  predicate FunctionDefinitionsEqual(existingDef: string, f: FunctionSchema) {
    var existing := ExtractDollarQuotedBody(existingDef);
    && existing.Some?
    && Trim(existing.value) == Trim(f.body)
    && Contains(Lower(existingDef), "language " + Lower(f.lang))
    && MentionsDefiner(existingDef) == f.securityDefiner
  }
}
