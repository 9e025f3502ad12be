/** The domain events the catalog publishes and the reservation context consumes
    (catalog/RoomCatalogEvent.java). Room types and statuses travel as enum names. */
module CatalogEvents {

  datatype RoomAddedToCatalog = RoomAddedToCatalog(roomId: int, name: string, roomLocation: string, roomType: string, operationalStatus: string)
  datatype RoomOperationalStatusChanged = RoomOperationalStatusChanged(roomId: int, operationalStatus: string)
  datatype RoomRemovedFromCatalog = RoomRemovedFromCatalog(roomId: int)

  /** One published event, as it appears in the publication log. */
  datatype CatalogEvent =
    | Added(added: RoomAddedToCatalog)
    | StatusChanged(changed: RoomOperationalStatusChanged)
    | Removed(removed: RoomRemovedFromCatalog)
}
