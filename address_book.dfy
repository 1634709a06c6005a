/** The address book (main.py lines 46-55): a map from a contact's name to its
    record. The map holds references, so a record found in the book is the very
    object that was added, and later edits of it are seen through the book. */
module AddressBooks {
  import opened Wrappers
  import opened Fields
  import opened Records

  class AddressBook {
    var data: map<string, Record>

    /** Every record is filed under its own name, as `add_record` files it. */
    ghost predicate Valid()
      reads this
    {
      forall name | name in data :: data[name].name == name
    }

    constructor ()
      ensures Valid() && data == map[]
    {
      data := map[];
    }

    /** `find`: the record filed under `name`, or None. */
    function Find(name: string): (r: Option<Record>)
      reads this
      ensures r.Some? <==> name in data
      ensures r.Some? ==> r.value == data[name]
      ensures Valid() && r.Some? ==> r.value.name == name
    {
      if name in data then Some(data[name]) else None
    }

    /** `add_record`: file the record under its name, replacing any record already
        filed there; every other entry stays as it was. */
    method AddRecord(record: Record)
      modifies this
      ensures data == old(data)[record.name := record]
      ensures Find(record.name) == Some(record)
      ensures forall name :: name != record.name ==> Find(name) == old(Find(name))
      ensures |data| == if record.name in old(data) then old(|data|) else old(|data|) + 1
      ensures old(Valid()) ==> Valid()
    {
      data := data[record.name := record];
      assert data.Keys == old(data).Keys + {record.name};
    }

    /** `delete`: drop the entry for `name` if there is one; otherwise do nothing. */
    method Delete(name: string)
      modifies this
      ensures data == old(data) - {name}
      ensures Find(name) == None
      ensures forall other :: other != name ==> Find(other) == old(Find(other))
      ensures |data| == if name in old(data) then old(|data|) - 1 else old(|data|)
      ensures old(Valid()) ==> Valid()
    {
      if name in data {
        data := data - {name};
        assert data.Keys == old(data).Keys - {name};
      }
    }
  }

  /** A fresh record with the given phones, added one by one through `add_phone`. */
  method RecordWithPhones(name: string, phones: seq<string>) returns (record: Record)
    requires AllValid(phones)
    ensures fresh(record) && record.name == name && record.phones == phones
  {
    record := new Record(name);
    for i := 0 to |phones|
      invariant record.phones == phones[..i]
    {
      var r := record.AddPhone(phones[i]);
      assert phones[..i + 1] == phones[..i] + [phones[i]];
    }
  }

  /** The usage scenario written out in the comments of main.py, book side: both
      contacts are filed, John is found, Jane is deleted. */
  method Scenario()
  {
    var book := new AddressBook();
    var john := RecordWithPhones("John", ["1234567890", "5555555555"]);
    book.AddRecord(john);
    var jane := RecordWithPhones("Jane", ["9876543210"]);
    book.AddRecord(jane);

    var found := book.Find("John");
    assert found == Some(john);
    EditScenario(john);
    assert book.Find("John") == Some(john);

    book.Delete("Jane");
    assert book.Find("Jane") == None;
    assert book.Find("John") == Some(john);
    assert john.phones == ["1112223333", "5555555555"];
  }

  /** The usage scenario, record side: John's first number is edited, and his
      second is still found at position 1. */
  method EditScenario(john: Record)
    requires john.phones == ["1234567890", "5555555555"]
    modifies john
    ensures john.phones == ["1112223333", "5555555555"]
    ensures FirstIndex(john.phones, "5555555555") == Some(1)
  {
    var r := john.EditPhone("1234567890", "1112223333");
    assert r == Pass;
    assert john.phones == ["1112223333", "5555555555"] by {
      ReplaceFirstAt(["1234567890", "5555555555"], "1234567890", "1112223333", 0);
    }
    var at := john.FindPhone("5555555555");
    assert at == Some(1);
  }

  /** The error paths on a record holding one phone: a malformed number is refused
      by `add_phone`, an absent one by `edit_phone`, and neither changes the record. */
  method ErrorScenario()
  {
    var john := new Record("John");
    var r := john.AddPhone("1234567890");
    assert r == Pass;
    r := john.AddPhone("12345");
    assert r == Fail(ValueError(InvalidPhoneMessage));
    assert "0000000000" != "1234567890";
    r := john.EditPhone("0000000000", "1112223333");
    assert r == Fail(ValueError(NotFoundMessage));
    john.RemovePhone("0000000000");
    assert john.phones == ["1234567890"];
  }
}
