/** The string formatters of the UI: the shortened contract address, the
    account label, and the contract-instance selector built on them. */
module Formatters {
  import opened Wrappers
  import opened JsStrings
  import opened JsBigInt

  /** `addr.length > 12 ? addr.slice(0, 8) + '...' + addr.slice(-6) : addr`. */
  function ShortenAddress(addr: string): string {
    if |addr| > 12 then SliceFront(addr, 8) + "..." + SliceBack(addr, 6) else addr
  }

  /** Short addresses are shown whole; a longer one keeps its first eight
      and last six characters around `...`, 17 characters in all — which
      is longer than the address itself for lengths 13 to 16. */
  lemma ShortenAddressShape(addr: string)
    ensures |addr| <= 12 ==> ShortenAddress(addr) == addr
    ensures |addr| > 12 ==>
            var r := ShortenAddress(addr);
            && |r| == 17
            && r[..8] == addr[..8]
            && r[8..11] == "..."
            && r[11..] == addr[|addr| - 6..]
    ensures 12 < |addr| < 17 ==> |ShortenAddress(addr)| > |addr|
  {
  }

  /** `Account ${idx + 1}: ${address.slice(0, 6)}...${address.slice(-4)}`. */
  function AccountLabel(idx: nat, address: string): string {
    "Account " + Decimal(idx + 1) + ": " + SliceFront(address, 6) + "..." + SliceBack(address, 4)
  }

  /** The label numbers accounts from 1: its number, read back as an
      integer, is the position plus one; it then shows the first six and
      last four characters of the address. */
  lemma AccountLabelParts(idx: nat, address: string)
    requires |address| >= 10
    ensures var text := AccountLabel(idx, address);
            var number := Decimal(idx + 1);
            && StartsWith(text, "Account ")
            && text[8..8 + |number|] == number
            && ParseBigInt(number) == Some(idx + 1)
            && text[8 + |number|..] == ": " + address[..6] + "..." + address[|address| - 4..]
            && |text| == 23 + |number|
  {
    var text := AccountLabel(idx, address);
    var number := Decimal(idx + 1);
    assert text == "Account " + number + (": " + address[..6] + "..." + address[|address| - 4..]);
    IntTextRoundTrip(idx + 1);
    assert IntText(idx + 1) == number;
  }

  datatype InstanceSelector = InstanceSelector(
    disabled: bool,
    options: seq<(string, string)>,
    value: string,
    actionsFor: Option<string>)

  /** ContractInstanceSelector: options valued by full addresses and
      labelled by the shortened ones; copy and delete act on the selected
      instance and are shown only when there is one. */
  function InstanceSelectorView(addresses: seq<string>, selected: Option<string>): InstanceSelector {
    InstanceSelector(
      |addresses| == 0,
      if |addresses| == 0 then [("", "No instances available")]
      else seq(|addresses|, i requires 0 <= i < |addresses| => (addresses[i], ShortenAddress(addresses[i]))),
      selected.GetOr(""),
      selected)
  }

  /** The selector is disabled exactly when there are no instances; an
      option's value is the full address, so choosing an option selects
      (and deleting removes) the instance itself, never its shortened
      label; and each label is determined by its address. */
  lemma InstanceSelectorOptions(addresses: seq<string>, selected: Option<string>)
    ensures var v := InstanceSelectorView(addresses, selected);
            && (v.disabled <==> addresses == [])
            && (addresses == [] ==> v.options == [("", "No instances available")])
            && (addresses != [] ==>
                  |v.options| == |addresses|
                  && forall i :: 0 <= i < |addresses| ==>
                       v.options[i].0 == addresses[i] && v.options[i].1 == ShortenAddress(v.options[i].0))
            && (v.actionsFor.Some? <==> selected.Some?)
            && (selected.Some? ==> v.value == selected.value && v.actionsFor == selected)
  {
  }
}
