/** How a destination argument becomes an address: directly, or by the TXT records of a DNS name. */
module Resolver {
  import opened Core
  import Address

  predicate Valid(a: string) { Address.Parse(a).Ok? }

  lemma EmptyIsInvalid()
    ensures !Valid("")
  {
  }

  datatype Resolved = Direct(address: string) | ViaDns(name: string) | Invalid | Refused

  predicate NoDot(name: string, i: nat, j: nat)
    requires j <= |name|
  {
    forall k | i <= k < j :: name[k] != '.'
  }

  /** A maximal part between dots. */
  predicate Label(name: string, i: nat, j: nat) {
    && i <= j <= |name|
    && (i == 0 || name[i - 1] == '.')
    && (j == |name| || name[j] == '.')
    && NoDot(name, i, j)
  }

  ghost predicate HasAddressLabel(name: string) {
    exists i, j | 0 <= i <= j <= |name| :: Label(name, i, j) && Valid(name[i..j])
  }

  /** Position of the first dot from `start` on, or the end. */
  method FindDot(name: string, start: nat) returns (dot: nat)
    requires start <= |name|
    ensures start <= dot <= |name| && (dot == |name| || name[dot] == '.') && NoDot(name, start, dot)
  {
    dot := start;
    while dot < |name| && name[dot] != '.'
      invariant start <= dot <= |name| && NoDot(name, start, dot)
    {
      dot := dot + 1;
    }
  }

  /** A destination is used directly exactly when it is an address, and goes to the DNS exactly when it is a dotted name
      none of whose labels is an address: an address is a secret that must not reach a DNS server. */
  method Classify(value: string) returns (r: Resolved)
    ensures r == if Valid(value) then Direct(value)
                 else if value == "" || '.' !in value then Invalid
                 else if HasAddressLabel(value) then Refused
                 else ViaDns(value)
  {
    hide Valid;
    EmptyIsInvalid();
    if value == "" {
      return Invalid;
    }
    if Valid(value) {
      return Direct(value);
    }
    if '.' !in value {
      return Invalid;
    }
    var start: nat := 0;
    while start <= |value|
      invariant start <= |value| + 1 && (start == 0 || (start <= |value| && value[start - 1] == '.'))
      invariant forall i, j | 0 <= i < start && i <= j <= |value| :: Label(value, i, j) ==> !Valid(value[i..j])
      decreases |value| + 1 - start
    {
      var end := FindDot(value, start);
      forall i, j | start <= i <= end && i <= j <= |value| && Label(value, i, j) ensures i == start && j == end {
        OnlyLabel(value, start, end, i, j);
      }
      if Valid(value[start..end]) {
        assert Label(value, start, end);
        return Refused;
      }
      if end == |value| {
        break;
      }
      start := end + 1;
    }
    return ViaDns(value);
  }

  /** Between two dots there is only one label. */
  lemma OnlyLabel(name: string, start: nat, end: nat, i: nat, j: nat)
    requires start <= i <= end <= |name| && i <= j <= |name|
    requires NoDot(name, start, end) && (end == |name| || name[end] == '.') && (start == 0 || name[start - 1] == '.')
    requires Label(name, i, j)
    ensures i == start && j == end
  {
  }

  const PREFIX := "tailcat="

  /** The value of a TXT record that names an address. */
  function Value(record: string): Option<string> {
    if PREFIX <= record then Some(record[|PREFIX|..]) else None
  }

  /** The records that count start with tailcat= and have the address after it. */
  lemma ValueExactly(record: string, address: string)
    ensures Value(record) == Some(address) <==> record == "tailcat=" + address
  {
    if record == "tailcat=" + address {
      assert record[..8] == "tailcat=" && record[8..] == address;
    }
  }

  /** An address comes out exactly when some record names one, every naming record is valid, and all of them agree. */
  method AddressFromTxt(records: seq<string>) returns (r: Option<string>)
    ensures r.Some? ==>
              && Valid(r.value)
              && (exists i | 0 <= i < |records| :: Value(records[i]) == r)
              && (forall i | 0 <= i < |records| && Value(records[i]).Some? :: Value(records[i]) == r)
    ensures r.None? ==>
              || (forall i | 0 <= i < |records| :: Value(records[i]).None?)
              || (exists i | 0 <= i < |records| :: Value(records[i]).Some? && !Valid(Value(records[i]).value))
              || (exists i, j | 0 <= i < j < |records| ::
                    Value(records[i]).Some? && Value(records[j]).Some? && Value(records[i]) != Value(records[j]))
  {
    hide Value, Valid;
    EmptyIsInvalid();
    var selected := "";
    var k := 0;
    while k < |records|
      invariant k <= |records|
      invariant selected == "" ==> forall i | 0 <= i < k :: Value(records[i]).None?
      invariant selected != "" ==>
                  && Valid(selected)
                  && (exists i | 0 <= i < k :: Value(records[i]) == Some(selected))
                  && (forall i | 0 <= i < k && Value(records[i]).Some? :: Value(records[i]).value == selected)
    {
      var value := Value(records[k]);
      if value.Some? {
        if value.value == "" || !Valid(value.value) {
          return None;
        }
        if selected == "" {
          selected := value.value;
        } else if selected != value.value {
          return None;
        }
      }
      k := k + 1;
    }
    return if selected == "" then None else Some(selected);
  }
}
