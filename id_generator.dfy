/**
 * `AssetIdGenerator` and the demo's `Assets` table (demo/src/loader/asset.rs):
 * loaded assets get ids handed out by a counter, so no two assets share one.
 */
module IdGenerator {
  /** `u32::MAX + 1`. */
  const U32_MODULUS: nat := 0x1_0000_0000

  /** `AssetId`: a `u32`. */
  datatype AssetId = AssetId(id: nat)

  class AssetIdGenerator {
    var nextId: nat
    /** The ids handed out so far. */
    ghost var issued: set<AssetId>

    ghost predicate Valid()
      reads this
    {
      nextId < U32_MODULUS && forall a | a in issued :: a.id < nextId
    }

    /** `AssetIdGenerator::new`: counting starts at 0. */
    constructor ()
      ensures Valid() && nextId == 0 && issued == {}
    {
      nextId := 0;
      issued := {};
    }

    /**
     * `next`: the current id, then the counter moves on. The `+= 1`
     * overflows after 2^32 - 1 ids (a panic in debug builds), so a caller
     * may not go past that.
     */
    method Next() returns (id: AssetId)
      requires Valid() && nextId + 1 < U32_MODULUS
      modifies this
      ensures Valid()
      ensures id == AssetId(old(nextId)) && nextId == old(nextId) + 1
      ensures id !in old(issued) && issued == old(issued) + {id}
    {
      id := AssetId(nextId);
      nextId := nextId + 1;
      issued := issued + {id};
    }
  }

  /** Ids handed out one after the other increase, so they are distinct. */
  method NextTwice(generator: AssetIdGenerator) returns (first: AssetId, second: AssetId)
    requires generator.Valid() && generator.nextId + 2 < U32_MODULUS
    modifies generator
    ensures first.id < second.id && first != second
    ensures generator.Valid()
  {
    first := generator.Next();
    second := generator.Next();
  }

  /** The demo's `Assets<T>`: the loaded assets by id. */
  class Assets<T> {
    var assets: map<AssetId, T>

    /** `Assets::new` and `Default`: no assets. */
    constructor ()
      ensures assets == map[]
    {
      assets := map[];
    }
  }
}
