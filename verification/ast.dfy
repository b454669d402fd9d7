/** The folded AST of `ast/types.ts`: a tagged variant whose nodes carry a
    0-based `Position`. `Null` stands for the `null` the folders return for
    shapes they do not recognise; `Arguments` and `ArrayIndex` are the
    folder's transient trailer markers, which the reduction of a `power`
    removes again. */
module Ast {

  datatype Position = Position(line: int, start: int, end: int)

  datatype Item =
    | Null
    | Expression(terms: seq<Item>)
    | Assignment(target: Item, right: Item)
    | VariableReference(name: string, pos: Position)
    | MethodReference(name: string, args: seq<Item>, pos: Position)
    | ArrayReference(name: string, index: int, pos: Position)
    | Dictionary(pos: Position)
    | Integer(value: int, pos: Position)
    | Float(literal: string, pos: Position)
    | Text(content: string, pos: Position)
    | QiskitBoolean(truth: bool, pos: Position)
    | Arguments(args: seq<Item>, pos: Position)
    | ArrayIndex(indexes: seq<Item>, pos: Position)

  datatype Statement = Statement(expression: Item)

  predicate IsMarker(item: Item) {
    item.Arguments? || item.ArrayIndex?
  }

  predicate NoMarkers(items: seq<Item>) {
    forall i :: 0 <= i < |items| ==> !IsMarker(items[i])
  }

  /** Number of items that are not trailer markers. */
  function CountNonMarkers(items: seq<Item>): nat {
    if |items| == 0 then 0
    else CountNonMarkers(items[..|items| - 1]) + (if IsMarker(items[|items| - 1]) then 0 else 1)
  }
}
