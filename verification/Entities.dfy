// The handle of an entity: an id, and the generation it was issued under.

module Entities {
  import opened Bytes

  datatype Entity = Entity(id: u32, generation: u32)
}
