/** The print-command messages that the routes hand to the device protocol. Their
    constructors live in the protocol package, which is not part of this model: a
    message here is the record of which device it addresses and which image fills
    each of its named pixel fields. */
module Messages {
  /** A printer's device address, the routing key of the protocol layer. */
  type DeviceAddress = string

  /** An image, named by how it was produced; the encoding pipelines themselves are
      not modelled.
      - Uploaded(body): `image_encoding.raw_image_pipeline` applied to the
        base64-decoded request body `body`;
      - Rendered(html): `image_encoding.default_pipeline` applied to the HTML `html`. */
  datatype Image = Uploaded(body: seq<bv8>) | Rendered(html: string)

  /** Which of the six message constructors a message was built with. */
  datatype Kind =
    | Delivery
    | DeliveryAndPrint
    | DeliveryNoFace
    | DeliveryAndPrintNoFace
    | PersonalityWithMessage
    | Personality

  /** The six message variants, each with the fields its constructor takes. */
  datatype Message =
    | SetDelivery(deviceAddress: DeviceAddress, pixels: Image)
    | SetDeliveryAndPrint(deviceAddress: DeviceAddress, pixels: Image)
    | SetDeliveryNoFace(deviceAddress: DeviceAddress, pixels: Image)
    | SetDeliveryAndPrintNoFace(deviceAddress: DeviceAddress, pixels: Image)
    | SetPersonality(
        deviceAddress: DeviceAddress,
        facePixels: Image,
        nothingToPrintPixels: Image,
        cannotSeeBridgePixels: Image,
        cannotSeeInternetPixels: Image)
    | SetPersonalityWithMessage(
        deviceAddress: DeviceAddress,
        facePixels: Image,
        nothingToPrintPixels: Image,
        cannotSeeBridgePixels: Image,
        cannotSeeInternetPixels: Image,
        messagePixels: Image)
  {
    /** The constructor this message was built with. */
    function KindOf(): Kind
    {
      match this
      case SetDelivery(_, _) => Delivery
      case SetDeliveryAndPrint(_, _) => DeliveryAndPrint
      case SetDeliveryNoFace(_, _) => DeliveryNoFace
      case SetDeliveryAndPrintNoFace(_, _) => DeliveryAndPrintNoFace
      case SetPersonality(_, _, _, _, _) => Personality
      case SetPersonalityWithMessage(_, _, _, _, _, _) => PersonalityWithMessage
    }

    /** Every pixel field of the message, in the order the constructor takes them:
        the single `pixels` field, or the face first and then the captions. */
    function Slots(): (s: seq<Image>)
      ensures |s| == SlotCount(KindOf())
    {
      match this
      case SetPersonality(_, face, nothing, bridge, internet) =>
        [face, nothing, bridge, internet]
      case SetPersonalityWithMessage(_, face, nothing, bridge, internet, message) =>
        [face, nothing, bridge, internet, message]
      case _ => [pixels]
    }
  }

  /** How many pixel fields a variant has. */
  function SlotCount(k: Kind): nat
  {
    match k
    case Personality => 4
    case PersonalityWithMessage => 5
    case _ => 1
  }
}
