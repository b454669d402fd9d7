/** The symbols the Qiskit analyser stores in its symbol tables.

    The classes behind them (`VariableSymbol`, `ClassSymbol`, the built-in
    types) are not part of this model; all that the analysed code relies on
    is that a symbol has a name, possibly a type that is itself a symbol,
    and, for a class, a list of methods each naming its return type. */
module Symbols {
  import opened Outcomes

  /** A method of a class: its name and the name of its return type. */
  datatype MethodSig = MethodSig(name: string, returnType: string)

  datatype Symbol = Symbol(name: string, ofType: Option<Symbol>, methods: seq<MethodSig>)

  /** `new VariableSymbol(name, type)`: a variable whose type is another symbol. */
  function VariableSymbol(name: string, ofType: Symbol): Symbol {
    Symbol(name, Some(ofType), [])
  }

  /** A class (or built-in type) symbol with its method table. */
  function ClassSymbol(name: string, methods: seq<MethodSig>): Symbol {
    Symbol(name, None, methods)
  }

  /** `methods.find(m => m.getName() === name)`: the first method so named. */
  function FindMethod(methods: seq<MethodSig>, name: string): (r: Option<MethodSig>)
    ensures r.None? <==> forall i :: 0 <= i < |methods| ==> methods[i].name != name
    ensures r.Some? ==> exists i :: 0 <= i < |methods| && methods[i] == r.value
                          && r.value.name == name
                          && forall j :: 0 <= j < i ==> methods[j].name != name
  {
    if |methods| == 0 then None
    else if methods[0].name == name then Some(methods[0])
    else
      var r := FindMethod(methods[1..], name);
      if r.Some? then
        var i :| 0 <= i < |methods[1..]| && methods[1..][i] == r.value && r.value.name == name
                 && forall j :: 0 <= j < i ==> methods[1..][j].name != name;
        assert methods[i + 1] == r.value;
        r
      else r
  }
}
