/** The table the hierarchy analyses build is an oracle dispatch can rely on. */
module DispatchOracle {
  import Declarations
  import Graph
  import ClassHierarchy
  import Dispatch
  import Types

  /** On an acyclic class graph in which no class is implemented as an interface, the instance-of table
      is transitive and antisymmetric, and has no entry for a name that is not a class. */
  lemma TableIsHierarchical(p: Declarations.Program, table: Dispatch.Oracle)
    requires Graph.Acyclic(Declarations.ClassExtends(p)) && ClassHierarchy.NoClassIsImplemented(p)
    requires forall c :: c in table <==> Declarations.IsClass(p, c)
    requires forall c :: c in table ==> ClassHierarchy.Lists(table[c], t => ClassHierarchy.InstanceOf(p, c, t))
    ensures Dispatch.Hierarchical(table)
  {
    var sub := ClassHierarchy.TableOracle(p);
    ClassHierarchy.TableOracleIsNominalOrder(p);
    forall a, b ensures Dispatch.IsSubtype(a, b, table) <==> sub(a, b) {
      if a in table {
        assert b in table[a] <==> ClassHierarchy.InstanceOf(p, a, b);
      }
    }
    forall a, b, c | Dispatch.IsSubtype(a, b, table) && Dispatch.IsSubtype(b, c, table)
      ensures Dispatch.IsSubtype(a, c, table)
    {
      assert sub(a, b) && sub(b, c);
    }
    forall a, b | Dispatch.IsSubtype(a, b, table) && Dispatch.IsSubtype(b, a, table) ensures a == b {
      assert sub(a, b) && sub(b, a);
    }
  }
}
