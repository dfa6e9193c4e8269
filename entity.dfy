/** Entity identifiers (entity/id.go is not part of this model): an id is its hexadecimal text. */
module Entity {
  type Id = string
}
