/** Occurrence records as the viewer holds them: GeoJSON point features and their properties. */
module Records {
  import opened Wrappers
  import opened JsValues

  /** A point feature: its properties and `geometry.coordinates = [lng, lat]`. */
  datatype Feature = Feature(props: Props, lng: real, lat: real)

  /** A feature collection: its other top-level members and its features. */
  datatype Collection = Collection(header: Props, features: seq<Feature>)

  /** A map position as the click handler reports it. */
  datatype LatLng = LatLng(lat: real, lng: real)

  const IdKey: string := "id_ocorrencia"

  /** `p.id_ocorrencia`. */
  function IdOf(p: Props): Value {
    Get(p, IdKey)
  }

  /** `p.status`, when it is a string. */
  function StatusOf(p: Props): Option<string> {
    TextOf(Get(p, "status"))
  }

  /** `p.data_hora`. */
  function DateOf(p: Props): Value {
    Get(p, "data_hora")
  }

  function PropsOf(f: Feature): Props {
    f.props
  }
}
