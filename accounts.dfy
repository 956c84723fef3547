/** The cleaned record both drafts of the normaliser produce: a dict with
    exactly the keys Name, Phone and Website. */
module Accounts {
  import opened Py

  datatype Account = Account(name: string, phone: string, website: string)
  {
    /** The dict the Python code builds. */
    function AsDict(): (d: Record)
      ensures d.Keys == {"Name", "Phone", "Website"}
      ensures d["Name"] == name && d["Phone"] == phone && d["Website"] == website
    {
      map["Name" := name, "Phone" := phone, "Website" := website]
    }
  }
}
