/**
 * The parser's list of top-level nodes (src/ast.c): `generated_ast`, grown
 * by `realloc` one slot per `append_statement`, and `ast_length`.
 */
module Registry {
  import opened Ast

  class AstRegistry {
    /** `generated_ast`: reallocated to exactly `ast_length` entries on every append. */
    var generatedAst: array<Node>
    var astLength: nat

    ghost predicate Valid()
      reads this
    {
      generatedAst.Length == astLength
    }

    /** The roots in the order they were appended. */
    function Roots(): seq<Node>
      reads this, generatedAst
    {
      generatedAst[..]
    }

    /** The registry before parsing: a null array and length zero. */
    constructor ()
      ensures Valid() && Roots() == [] && astLength == 0
    {
      generatedAst := new Node[0];
      astLength := 0;
    }

    /**
     * `append_statement`: grows the array by one slot, keeping the old
     * entries, and stores the node at the end. When `realloc` fails the
     * program reports it and exits; `reallocSucceeds` stands for the
     * allocator's answer.
     */
    method AppendStatement(node: Node, reallocSucceeds: bool) returns (exited: bool)
      requires Valid()
      modifies this
      ensures exited <==> !reallocSucceeds
      ensures !exited ==> Valid() && Roots() == old(Roots()) + [node] && astLength == old(astLength) + 1
      ensures !exited ==> fresh(generatedAst)
    {
      if !reallocSucceeds {
        return true;
      }
      var grown := new Node[astLength + 1];
      var i := 0;
      while i < astLength
        invariant 0 <= i <= astLength
        invariant Valid() && grown.Length == astLength + 1
        invariant astLength == old(astLength) && generatedAst == old(generatedAst)
        invariant grown[..i] == generatedAst[..i]
        decreases astLength - i
      {
        grown[i] := generatedAst[i];
        i := i + 1;
      }
      grown[astLength] := node;
      assert grown[..] == generatedAst[..] + [node] by {
        assert grown[..astLength] == generatedAst[..];
      }
      generatedAst := grown;
      astLength := astLength + 1;
      exited := false;
    }
  }
}
