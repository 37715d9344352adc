/**
 * The fee receipt and the salary slip that the server renders from a record
 * and the posted amount and payment date. The HTML layout and styling are not
 * modelled: a document is its title, its labelled lines in order, and the
 * photo it embeds, if any.
 */
module Documents {
  import opened JsValues

  datatype Line = Line(caption: string, value: string)

  datatype Image = Image(src: string, cssClass: string, alt: string)

  datatype Document = Document(
    title: string,
    institute: string,
    heading: string,
    section: string,
    lines: seq<Line>,
    photo: Option<Image>)

  const Institute := "Impact Knowledge Institute"

  /** The document shows `value` under `caption`. */
  predicate Shows(d: Document, caption: string, value: string)
  {
    Line(caption, value) in d.lines
  }

  /** `${r.f}` */
  function Field(r: Record, f: string): string
  {
    Display(Get(r, f))
  }

  /** The `<img>` for a truthy `photo` field, served from /uploads/. */
  function PhotoOf(r: Record, cssClass: string, alt: string): (img: Option<Image>)
    ensures img.Some? <==> FieldTruthy(r, "photo")
    ensures img.Some? ==> img.value.src == "/uploads/" + Field(r, "photo")
  {
    if FieldTruthy(r, "photo") then Some(Image("/uploads/" + Field(r, "photo"), cssClass, alt)) else None
  }

  /**
   * The fee receipt for a student: name, father's name, class, admission date,
   * payment date and amount; the photo exactly when the student's photo is truthy.
   */
  function FeeReceipt(student: Record, amount: string, paymentDate: string): (d: Document)
    ensures d.title == "Fee Receipt" && d.heading == "Fee Receipt"
    ensures Shows(d, "Student Name", Field(student, "firstName") + " " + Field(student, "lastName"))
    ensures Shows(d, "Father's Name", Field(student, "fatherName"))
    ensures Shows(d, "Student's Class", Field(student, "currentClass"))
    ensures Shows(d, "Admission Date", Field(student, "admissionDate"))
    ensures Shows(d, "Payment Date", paymentDate) && Shows(d, "Date", paymentDate)
    ensures Shows(d, "Amount", amount)
    ensures d.photo.Some? <==> FieldTruthy(student, "photo")
    ensures d.photo.Some? ==> d.photo.value.src == "/uploads/" + Field(student, "photo")
  {
    Document(
      "Fee Receipt", Institute, "Fee Receipt", "Student's Details",
      [ Line("Student Name", Field(student, "firstName") + " " + Field(student, "lastName")),
        Line("Father's Name", Field(student, "fatherName")),
        Line("Student's Class", Field(student, "currentClass")),
        Line("Admission Date", Field(student, "admissionDate")),
        Line("Payment Date", paymentDate),
        Line("Amount", amount),
        Line("Director's Sign", "____________"),
        Line("Date", paymentDate) ],
      PhotoOf(student, "student-photo", "Student Photo"))
  }

  /**
   * The salary slip for a faculty member: name, subject, joining date, payment
   * date and amount; the photo exactly when the member's photo is truthy.
   */
  function SalarySlip(faculty: Record, amount: string, paymentDate: string): (d: Document)
    ensures d.title == "Salary Slip" && d.heading == "Salary Slip"
    ensures Shows(d, "Faculty Name", Field(faculty, "firstName") + " " + Field(faculty, "lastName"))
    ensures Shows(d, "Faculty Of", Field(faculty, "facultyOf"))
    ensures Shows(d, "Joining Date", Field(faculty, "joiningDate"))
    ensures Shows(d, "Payment Date", paymentDate) && Shows(d, "Date", paymentDate)
    ensures Shows(d, "Amount", amount)
    ensures d.photo.Some? <==> FieldTruthy(faculty, "photo")
    ensures d.photo.Some? ==> d.photo.value.src == "/uploads/" + Field(faculty, "photo")
  {
    Document(
      "Salary Slip", Institute, "Salary Slip", "Faculty's Details",
      [ Line("Faculty Name", Field(faculty, "firstName") + " " + Field(faculty, "lastName")),
        Line("Faculty Of", Field(faculty, "facultyOf")),
        Line("Joining Date", Field(faculty, "joiningDate")),
        Line("Payment Date", paymentDate),
        Line("Amount", amount),
        Line("Director's Sign", "_____________"),
        Line("Date", paymentDate) ],
      PhotoOf(faculty, "faculty-photo", "Faculty Photo"))
  }

  /** The fields a fee receipt reads; nothing else of the student appears in it. */
  predicate SameReceiptFields(a: Record, b: Record)
  {
    forall f :: f in ["firstName", "lastName", "fatherName", "currentClass", "admissionDate", "photo"] ==>
      Get(a, f) == Get(b, f)
  }

  /** Two students that agree on the fields a receipt reads get the same receipt. */
  lemma FeeReceiptReadsOnlyItsFields(a: Record, b: Record, amount: string, paymentDate: string)
    requires SameReceiptFields(a, b)
    ensures FeeReceipt(a, amount, paymentDate) == FeeReceipt(b, amount, paymentDate)
  {
  }

  /** The fields a salary slip reads; nothing else of the faculty member appears in it. */
  predicate SameSlipFields(a: Record, b: Record)
  {
    forall f :: f in ["firstName", "lastName", "facultyOf", "joiningDate", "photo"] ==>
      Get(a, f) == Get(b, f)
  }

  /** Two faculty members that agree on the fields a slip reads get the same slip. */
  lemma SalarySlipReadsOnlyItsFields(a: Record, b: Record, amount: string, paymentDate: string)
    requires SameSlipFields(a, b)
    ensures SalarySlip(a, amount, paymentDate) == SalarySlip(b, amount, paymentDate)
  {
  }
}
