/** The fields of a contact (main.py lines 3-17): a Name holds any string, a
    Phone accepts its value only when it is a string of exactly ten digits. */
module Fields {
  import opened Wrappers

  /** The only exception the core raises: Python's ValueError, with its message. */
  datatype Error = ValueError(message: string)

  const InvalidPhoneMessage: string := "Invalid phone number"
  const NotFoundMessage: string := "Phone number not found"

  /** A well-formed phone number: ten characters, each a decimal digit. */
  predicate ValidPhone(s: string) {
    |s| == 10 && forall i :: 0 <= i < |s| ==> '0' <= s[i] <= '9'
  }

  /** `str.isdigit()` restricted to ASCII: at least one character, all of them digits. */
  predicate IsDigits(s: string) {
    |s| > 0 && forall c <- s :: '0' <= c <= '9'
  }

  /** The check on the constructor's argument accepts exactly the ten-digit strings. */
  lemma PhoneCheckIsTenDigits(s: string)
    ensures IsDigits(s) && |s| == 10 <==> ValidPhone(s)
  {
    if IsDigits(s) && |s| == 10 {
      forall i | 0 <= i < |s| ensures '0' <= s[i] <= '9' {
        assert s[i] in s;
      }
    }
  }

  /** `Phone(value)`: the value it stores, or the ValueError its constructor raises. */
  function NewPhone(value: string): (r: Result<string, Error>)
    ensures r.Success? <==> ValidPhone(value)
    ensures r.Success? ==> r.value == value
    ensures r.Failure? ==> r.error == ValueError(InvalidPhoneMessage)
  {
    PhoneCheckIsTenDigits(value);
    if IsDigits(value) && |value| == 10 then Success(value)
    else Failure(ValueError(InvalidPhoneMessage))
  }
}
