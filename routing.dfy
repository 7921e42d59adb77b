/** The action dispatch of `raw_printer_print_api` in sirius/web/printer_print.py:
    an `if/elif` chain that compares the action string from the URL with one
    literal per branch and builds the message of the first branch that matches.
    An action that matches no branch reaches the final `else`, which raises,
    so no message is handed to the protocol layer. */
module Routing {
  import opened Wrappers
  import opened Messages
  import Template

  /** The guards of the chain in source order, each with the constructor its branch
      uses. The fourth and fifth guards are both `print`. */
  const Branches: seq<(string, Kind)> := [
    ("deliveryandface", Delivery),
    ("printandface", DeliveryAndPrint),
    ("delivery", DeliveryNoFace),
    ("print", DeliveryAndPrintNoFace),
    ("print", DeliveryAndPrintNoFace),
    ("personalityandmessage", PersonalityWithMessage),
    ("personality", Personality)
  ]

  /** The routing the chain implements, as a table from action to variant. */
  const RouteTable: map<string, Kind> := map[
    "deliveryandface" := Delivery,
    "printandface" := DeliveryAndPrint,
    "delivery" := DeliveryNoFace,
    "print" := DeliveryAndPrintNoFace,
    "personalityandmessage" := PersonalityWithMessage,
    "personality" := Personality
  ]

  /** Index of the branch an `if/elif` chain over `branches` takes for `action`: the
      first whose guard equals the action, or None when the chain falls through. */
  function FirstMatch<K>(branches: seq<(string, K)>, action: string): (r: Option<nat>)
    ensures r.None? <==> forall i :: 0 <= i < |branches| ==> branches[i].0 != action
    ensures r.Some? ==>
      r.value < |branches| && branches[r.value].0 == action &&
      forall j :: 0 <= j < r.value ==> branches[j].0 != action
  {
    if |branches| == 0 then None
    else if branches[0].0 == action then Some(0)
    else
      match FirstMatch(branches[1..], action)
      case None => None
      case Some(i) => Some(i + 1)
  }

  /** The variant chosen by the branch the chain takes. */
  function Lookup<K>(branches: seq<(string, K)>, action: string): (r: Option<K>)
    ensures r.None? <==> forall i :: 0 <= i < |branches| ==> branches[i].0 != action
    ensures r.Some? ==> exists i :: 0 <= i < |branches| && branches[i] == (action, r.value)
  {
    match FirstMatch(branches, action)
    case None => None
    case Some(i) => Some(branches[i].1)
  }

  /** The first matching branch is the only branch with a matching guard and no
      matching guard before it. */
  lemma FirstMatchUnique<K>(branches: seq<(string, K)>, action: string, m: nat)
    requires m < |branches| && branches[m].0 == action
    requires forall j :: 0 <= j < m ==> branches[j].0 != action
    ensures FirstMatch(branches, action) == Some(m)
  {
  }

  /** A branch whose guard repeats an earlier guard is never taken, and deleting it
      from the chain changes no routing decision. */
  lemma {:induction false} ShadowedBranchIrrelevant<K>(branches: seq<(string, K)>, j: nat, k: nat, action: string)
    requires j < k < |branches| && branches[j].0 == branches[k].0
    ensures FirstMatch(branches, action) != Some(k)
    ensures Lookup(branches[..k] + branches[k + 1..], action) == Lookup(branches, action)
  {
    var pruned := branches[..k] + branches[k + 1..];
    assert forall i :: 0 <= i < k ==> pruned[i] == branches[i];
    assert forall i :: k <= i < |pruned| ==> pruned[i] == branches[i + 1];
    match FirstMatch(branches, action)
    case None =>
      assert FirstMatch(pruned, action).None?;
    case Some(m) =>
      // m != k, since the guard of branch k already matched at branch j
      if m < k {
        FirstMatchUnique(pruned, action, m);
      } else {
        FirstMatchUnique(pruned, action, m - 1);
      }
  }

  /** The chain routes every action in the table to the table's variant, and every
      other action to no branch at all. */
  lemma RouteMatchesTable(action: string)
    ensures Lookup(Branches, action) == (if action in RouteTable then Some(RouteTable[action]) else None)
  {
    if action == "deliveryandface" {
      FirstMatchUnique(Branches, action, 0);
    } else if action == "printandface" {
      FirstMatchUnique(Branches, action, 1);
    } else if action == "delivery" {
      FirstMatchUnique(Branches, action, 2);
    } else if action == "print" {
      FirstMatchUnique(Branches, action, 3);
    } else if action == "personalityandmessage" {
      FirstMatchUnique(Branches, action, 5);
    } else if action == "personality" {
      FirstMatchUnique(Branches, action, 6);
    } else {
      assert forall i :: 0 <= i < |Branches| ==> Branches[i].0 in RouteTable;
    }
  }

  /** The second `print` branch can never be taken, and the chain without it routes
      every action the same way. */
  lemma DuplicatePrintBranchIrrelevant(action: string)
    ensures FirstMatch(Branches, action) != Some(4)
    ensures Lookup(Branches[..4] + Branches[5..], action) == Lookup(Branches, action)
  {
    ShadowedBranchIrrelevant(Branches, 3, 4, action);
  }

  // The fixed captions of the personality messages.
  const NothingToPrint: string := "Nothing to print"
  const CannotSeeBridge: string := "Cannot see bridge"
  const CannotSeeInternet: string := "Cannot see internet"
  const HiThere: string := "Hi there!"

  /** A caption rendered by the default pipeline from its caption template: the HTML
      it is rendered from holds the caption verbatim between the template's fixed
      prefix and suffix. */
  function CaptionImage(caption: string): (r: Image)
    ensures r.Rendered? && r.html == Template.Prefix + caption + Template.Suffix
  {
    Rendered(Template.GenTemplate(caption))
  }

  /** The message the branch for `kind` builds: the uploaded image fills the single
      `pixels` field, or the face of a personality, whose other fields are the
      rendered fixed captions. */
  function BuildMessage(kind: Kind, address: DeviceAddress, pixels: Image): (m: Message)
    ensures m.KindOf() == kind && m.deviceAddress == address
    ensures m.Slots()[0] == pixels
    ensures forall i :: 1 <= i < |m.Slots()| ==> m.Slots()[i].Rendered?
    ensures m.SetPersonality? || m.SetPersonalityWithMessage? ==>
      m.nothingToPrintPixels == CaptionImage(NothingToPrint) &&
      m.cannotSeeBridgePixels == CaptionImage(CannotSeeBridge) &&
      m.cannotSeeInternetPixels == CaptionImage(CannotSeeInternet)
    ensures m.SetPersonalityWithMessage? ==> m.messagePixels == CaptionImage(HiThere)
  {
    match kind
    case Delivery => SetDelivery(address, pixels)
    case DeliveryAndPrint => SetDeliveryAndPrint(address, pixels)
    case DeliveryNoFace => SetDeliveryNoFace(address, pixels)
    case DeliveryAndPrintNoFace => SetDeliveryAndPrintNoFace(address, pixels)
    case PersonalityWithMessage =>
      SetPersonalityWithMessage(
        address, pixels,
        CaptionImage(NothingToPrint), CaptionImage(CannotSeeBridge),
        CaptionImage(CannotSeeInternet), CaptionImage(HiThere))
    case Personality =>
      SetPersonality(
        address, pixels,
        CaptionImage(NothingToPrint), CaptionImage(CannotSeeBridge),
        CaptionImage(CannotSeeInternet))
  }

  /** `raw_printer_print_api` apart from its I/O: for the action in the URL, the
      printer's device address and the request body, the message handed to
      `protocol_loop.send_message`, or None when the route raises before sending.
      Exactly the six actions of the table are routed, to the table's variant; the
      upload is the first pixel field and no other field is an upload. */
  function RawPrintApi(action: string, address: DeviceAddress, body: seq<bv8>): (r: Option<Message>)
    ensures r.Some? <==> action in RouteTable
    ensures r.Some? ==> r.value == BuildMessage(RouteTable[action], address, Uploaded(body))
    ensures r.Some? ==> r.value.KindOf() == RouteTable[action] && r.value.deviceAddress == address
    ensures r.Some? ==> r.value.Slots()[0] == Uploaded(body)
    ensures r.Some? ==> forall i :: 1 <= i < |r.value.Slots()| ==> r.value.Slots()[i].Rendered?
  {
    RouteMatchesTable(action);
    match Lookup(Branches, action)
    case None => None
    case Some(kind) =>
      var m := BuildMessage(kind, address, Uploaded(body));
      Some(m)
  }

  // A routed action builds the message of its table entry.
  lemma RoutedByTable(action: string, address: DeviceAddress, body: seq<bv8>)
    requires action in RouteTable
    ensures RawPrintApi(action, address, body) == Some(BuildMessage(RouteTable[action], address, Uploaded(body)))
  {
  }

  /** The four single-image actions put the upload in the `pixels` field of their
      variant. Note the naming: `deliveryandface` builds SetDelivery and `delivery`
      builds SetDeliveryNoFace. */
  lemma SingleImageRoutes(address: DeviceAddress, body: seq<bv8>)
    ensures RawPrintApi("deliveryandface", address, body) == Some(SetDelivery(address, Uploaded(body)))
    ensures RawPrintApi("printandface", address, body) == Some(SetDeliveryAndPrint(address, Uploaded(body)))
    ensures RawPrintApi("delivery", address, body) == Some(SetDeliveryNoFace(address, Uploaded(body)))
    ensures RawPrintApi("print", address, body) == Some(SetDeliveryAndPrintNoFace(address, Uploaded(body)))
  {
    RoutedByTable("deliveryandface", address, body);
    RoutedByTable("printandface", address, body);
    RoutedByTable("delivery", address, body);
    RoutedByTable("print", address, body);
  }

  /** The two personality actions put the upload in the face only; the other fields
      are the rendered fixed captions. */
  lemma PersonalityRoutes(address: DeviceAddress, body: seq<bv8>)
    ensures RawPrintApi("personality", address, body) == Some(SetPersonality(
      address, Uploaded(body),
      CaptionImage(NothingToPrint), CaptionImage(CannotSeeBridge), CaptionImage(CannotSeeInternet)))
    ensures RawPrintApi("personalityandmessage", address, body) == Some(SetPersonalityWithMessage(
      address, Uploaded(body),
      CaptionImage(NothingToPrint), CaptionImage(CannotSeeBridge), CaptionImage(CannotSeeInternet),
      CaptionImage(HiThere)))
  {
    RoutedByTable("personality", address, body);
    RoutedByTable("personalityandmessage", address, body);
  }

  /** No two pixel fields of a routed message share a provenance: the upload fills
      only the first field, and each caption template fills one field, since
      different captions give different templates. This is about how the images
      are produced, not about the pixels the pipelines compute. */
  lemma SlotsDistinct(action: string, address: DeviceAddress, body: seq<bv8>)
    requires RawPrintApi(action, address, body).Some?
    ensures var s := RawPrintApi(action, address, body).value.Slots();
      forall i, j :: 0 <= i < j < |s| ==> s[i] != s[j]
  {
    BuiltSlotsDistinct(RouteTable[action], address, body);
  }

  /** A message built around an upload has no two pixel fields of the same provenance. */
  lemma BuiltSlotsDistinct(kind: Kind, address: DeviceAddress, body: seq<bv8>)
    ensures var s := BuildMessage(kind, address, Uploaded(body)).Slots();
      forall i, j :: 0 <= i < j < |s| ==> s[i] != s[j]
  {
    var captions := [CaptionImage(NothingToPrint), CaptionImage(CannotSeeBridge),
      CaptionImage(CannotSeeInternet), CaptionImage(HiThere)];
    CaptionsRenderDistinct();
    match kind
    case Personality =>
      assert BuildMessage(kind, address, Uploaded(body)).Slots() == [Uploaded(body)] + captions[..3];
    case PersonalityWithMessage =>
      assert BuildMessage(kind, address, Uploaded(body)).Slots() == [Uploaded(body)] + captions;
    case _ =>
  }

  /** The four fixed captions render from four different templates. */
  lemma CaptionsRenderDistinct()
    ensures CaptionImage(NothingToPrint) != CaptionImage(CannotSeeBridge)
    ensures CaptionImage(NothingToPrint) != CaptionImage(CannotSeeInternet)
    ensures CaptionImage(NothingToPrint) != CaptionImage(HiThere)
    ensures CaptionImage(CannotSeeBridge) != CaptionImage(CannotSeeInternet)
    ensures CaptionImage(CannotSeeBridge) != CaptionImage(HiThere)
    ensures CaptionImage(CannotSeeInternet) != CaptionImage(HiThere)
  {
    Template.GenTemplateInjective(NothingToPrint, CannotSeeBridge);
    Template.GenTemplateInjective(NothingToPrint, CannotSeeInternet);
    Template.GenTemplateInjective(NothingToPrint, HiThere);
    Template.GenTemplateInjective(CannotSeeBridge, CannotSeeInternet);
    Template.GenTemplateInjective(CannotSeeBridge, HiThere);
    Template.GenTemplateInjective(CannotSeeInternet, HiThere);
  }
}
