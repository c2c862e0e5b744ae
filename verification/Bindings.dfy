/** Names of A2A protocol bindings. */
module Bindings {
  import opened Common
  import opened Text

  const HTTP_JSON_BINDING := "http+json"
  const JSON_RPC_BINDING := "json-rpc"
  const GRPC_BINDING := "grpc"
  const LOCALLY_SUPPORTED_BINDINGS := [HTTP_JSON_BINDING, JSON_RPC_BINDING]

  predicate IsLocallySupported(binding: string) {
    binding in LOCALLY_SUPPORTED_BINDINGS
  }

  predicate IsSeparator(c: char) { c == '+' || c == '-' || c == '_' }

  function Compact(s: string): string {
    Filter(s, (c: char) => !IsSeparator(c))
  }

  function CanonicalBinding(value: string): string {
    FoldedName(AsciiLower(Trim(value)))
  }

  /** Known names lose their spelling; others stay as folded. */
  function FoldedName(folded: string): string {
    var compact := Compact(folded);
    if compact == "httpjson" then HTTP_JSON_BINDING
    else if compact == "jsonrpc" then JSON_RPC_BINDING
    else if compact == "grpc" then GRPC_BINDING
    else folded
  }

  predicate IsBindingChar(c: char) {
    'a' <= c <= 'z' || '0' <= c <= '9' || c in "+-_."
  }

  predicate WellFormedBinding(binding: string) {
    forall i :: 0 <= i < |binding| ==> IsBindingChar(binding[i])
  }

  /** A binding is spelled with small letters, digits, plus, hyphen, underscore and dot. */
  lemma WellFormedExactly(binding: string)
    ensures WellFormedBinding(binding) <==>
            forall i :: 0 <= i < |binding| ==>
              var c := binding[i]; 'a' <= c <= 'z' || IsDigit(c) || c == '+' || c == '-' || c == '_' || c == '.'
  {
    forall i | 0 <= i < |binding|
      ensures var c := binding[i]; IsBindingChar(c) <==> 'a' <= c <= 'z' || IsDigit(c) || c == '+' || c == '-' || c == '_' || c == '.'
    {
      FourMarks(binding[i]);
    }
  }

  lemma FourMarks(c: char)
    ensures c in "+-_." <==> c == '+' || c == '-' || c == '_' || c == '.'
  {
    var marks := "+-_.";
    assert marks[0] == '+' && marks[1] == '-' && marks[2] == '_' && marks[3] == '.';
  }

  /** Lower-case, with no whitespace at either end. */
  predicate Folded(s: string) {
    Trimmed(s) && AsciiLower(s) == s
  }

  lemma FoldingFolds(value: string)
    ensures Folded(AsciiLower(Trim(value)))
  {
    var trimmed := Trim(value);
    AsciiLowerIdempotent(trimmed);
    LowerKeepsTrimmed(trimmed);
  }

  lemma LowerKeepsTrimmed(s: string)
    requires Trimmed(s)
    ensures Trimmed(AsciiLower(s))
  {
  }

  lemma PlainIsFolded(s: string)
    requires forall i :: 0 <= i < |s| ==> IsBindingChar(s[i])
    ensures Folded(s)
  {
    assert AsciiLower(s) == s;
  }

  lemma CompactConcat(s: string, t: string)
    ensures Compact(s + t) == Compact(s) + Compact(t)
  {
    FilterConcat(s, t, (c: char) => !IsSeparator(c));
  }

  lemma {:induction false} CompactKeeps(s: string)
    requires forall i :: 0 <= i < |s| ==> !IsSeparator(s[i])
    ensures Compact(s) == s
  {
    if s != [] {
      SplitLast(s);
      CompactKeeps(s[..|s| - 1]);
    }
  }

  lemma CompactOfKnown(left: string, separator: char, right: string)
    requires IsSeparator(separator)
    requires forall i :: 0 <= i < |left| ==> !IsSeparator(left[i])
    requires forall i :: 0 <= i < |right| ==> !IsSeparator(right[i])
    ensures Compact(left + [separator] + right) == left + right
  {
    CompactConcat(left + [separator], right);
    CompactConcat(left, [separator]);
    CompactKeeps(left);
    CompactKeeps(right);
    assert [separator][..0] == [];
    assert left + [] == left;
  }

  lemma HttpJsonIsFixed()
    ensures Folded(HTTP_JSON_BINDING) && FoldedName(HTTP_JSON_BINDING) == HTTP_JSON_BINDING
  {
    PlainIsFolded(HTTP_JSON_BINDING);
    CompactOfKnown("http", '+', "json");
    assert HTTP_JSON_BINDING == "http" + ['+'] + "json" && "httpjson" == "http" + "json";
  }

  lemma JsonRpcIsFixed()
    ensures Folded(JSON_RPC_BINDING) && FoldedName(JSON_RPC_BINDING) == JSON_RPC_BINDING
  {
    PlainIsFolded(JSON_RPC_BINDING);
    CompactOfKnown("json", '-', "rpc");
    assert JSON_RPC_BINDING == "json" + ['-'] + "rpc" && "jsonrpc" == "json" + "rpc";
  }

  lemma GrpcIsFixed()
    ensures Folded(GRPC_BINDING) && FoldedName(GRPC_BINDING) == GRPC_BINDING
  {
    PlainIsFolded(GRPC_BINDING);
    CompactKeeps(GRPC_BINDING);
  }

  lemma FoldedNameIsFixed(folded: string)
    requires Folded(folded)
    ensures Folded(FoldedName(folded)) && FoldedName(FoldedName(folded)) == FoldedName(folded)
  {
    HttpJsonIsFixed();
    JsonRpcIsFixed();
    GrpcIsFixed();
  }

  /** "httpjson" is another spelling of "http+json". */
  lemma HttpJsonSpellings()
    ensures CanonicalBinding("httpjson") == HTTP_JSON_BINDING == CanonicalBinding(HTTP_JSON_BINDING)
  {
    HttpJsonIsFixed();
    CanonicalOfFolded(HTTP_JSON_BINDING);
    PlainIsFolded("httpjson");
    CanonicalOfFolded("httpjson");
    CompactKeeps("httpjson");
  }

  lemma JsonRpcIsCanonical()
    ensures CanonicalBinding(JSON_RPC_BINDING) == JSON_RPC_BINDING
  {
    JsonRpcIsFixed();
    CanonicalOfFolded(JSON_RPC_BINDING);
  }

  lemma SupportedAreWellFormed()
    ensures WellFormedBinding(HTTP_JSON_BINDING) && WellFormedBinding(JSON_RPC_BINDING)
  {
  }

  lemma CanonicalOfFolded(s: string)
    requires Folded(s)
    ensures CanonicalBinding(s) == FoldedName(s)
  {
    TrimFixes(s);
  }

  lemma CanonicalIsIdempotent(value: string)
    ensures CanonicalBinding(CanonicalBinding(value)) == CanonicalBinding(value)
  {
    var folded := AsciiLower(Trim(value));
    FoldingFolds(value);
    FoldedNameIsFixed(folded);
    CanonicalOfFolded(FoldedName(folded));
  }

  /** Spellings that differ in case, surrounding whitespace, or separators of a known name, are one binding. */
  lemma SpellingsAgree(before: string, name: string, after: string)
    requires forall i :: 0 <= i < |before| ==> IsWhitespace(before[i])
    requires forall i :: 0 <= i < |after| ==> IsWhitespace(after[i])
    requires name != [] && Trimmed(name)
    ensures CanonicalBinding(before + (name + after)) == CanonicalBinding(AsciiLower(name)) == CanonicalBinding(name)
  {
    TrimAround(before, name, after);
    LowerKeepsTrimmed(name);
    AsciiLowerIdempotent(name);
    TrimFixes(name);
    TrimFixes(AsciiLower(name));
  }

  /** The known names are recognised by their letters alone; any other name is only trimmed and lowered. */
  lemma KnownNames(value: string)
    ensures var folded := AsciiLower(Trim(value));
            && (CanonicalBinding(value) == HTTP_JSON_BINDING <==> Compact(folded) == "httpjson")
            && (CanonicalBinding(value) == JSON_RPC_BINDING <==> Compact(folded) == "jsonrpc")
            && (CanonicalBinding(value) == GRPC_BINDING <==> Compact(folded) == "grpc")
            && (Compact(folded) !in ["httpjson", "jsonrpc", "grpc"] ==> CanonicalBinding(value) == folded)
  {
    HttpJsonIsFixed();
    JsonRpcIsFixed();
    GrpcIsFixed();
    KnownCompacts();
    assert "httpjson"[0] != "jsonrpc"[0] && "httpjson"[0] != "grpc"[0] && "jsonrpc"[0] != "grpc"[0];
    assert HTTP_JSON_BINDING[0] != JSON_RPC_BINDING[0] && HTTP_JSON_BINDING[0] != GRPC_BINDING[0];
  }

  lemma KnownCompacts()
    ensures Compact(HTTP_JSON_BINDING) == "httpjson" && Compact(JSON_RPC_BINDING) == "jsonrpc" && Compact(GRPC_BINDING) == "grpc"
  {
    CompactOfKnown("http", '+', "json");
    CompactOfKnown("json", '-', "rpc");
    CompactKeeps(GRPC_BINDING);
    assert HTTP_JSON_BINDING == "http" + ['+'] + "json" && "httpjson" == "http" + "json";
    assert JSON_RPC_BINDING == "json" + ['-'] + "rpc" && "jsonrpc" == "json" + "rpc";
  }
}
