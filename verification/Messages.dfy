/** Messages as objects. The program passes pointers to them around, so who may write to which
    matters. */
module Messages {
  import opened Dns

  class Message {
    var value: Msg

    constructor (value: Msg)
      ensures this.value == value
    {
      this.value := value;
    }

    /** A deep copy. */
    method Copy() returns (m: Message)
      ensures fresh(m) && m.value == value
    {
      m := new Message(value);
    }

    method SetId(id: nat)
      modifies this
      ensures value == old(value).(id := id)
    {
      value := value.(id := id);
    }
  }
}
